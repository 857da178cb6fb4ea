/** Finite directed graphs: walks, cycles, and the depth-first search that remembers only its current path. */
module Graphs {

  type Graph = map<nat, set<nat>>

  predicate Edge(g: Graph, a: nat, b: nat) {
    a in g && b in g[a]
  }

  predicate Walk(g: Graph, p: seq<nat>) {
    |p| >= 1 && forall i :: 0 <= i < |p| - 1 ==> Edge(g, p[i], p[i + 1])
  }

  predicate Joins(g: Graph, p: seq<nat>, a: nat, b: nat) {
    Walk(g, p) && p[0] == a && p[|p| - 1] == b
  }

  ghost predicate Reach(g: Graph, a: nat, b: nat) {
    exists p :: Joins(g, p, a, b)
  }

  ghost predicate Acyclic(g: Graph) {
    forall p :: Walk(g, p) && |p| >= 2 ==> p[0] != p[|p| - 1]
  }

  predicate Distinct(p: seq<nat>) {
    forall i, j :: 0 <= i < j < |p| ==> p[i] != p[j]
  }

  /** Every edge leads to a node of the graph. */
  ghost predicate Closed(g: Graph) {
    forall a, b :: Edge(g, a, b) ==> b in g
  }

  // ---------- Walks ----------

  lemma Concat(g: Graph, p: seq<nat>, q: seq<nat>)
    requires Walk(g, p) && Walk(g, q) && p[|p| - 1] == q[0]
    ensures Joins(g, p + q[1..], p[0], q[|q| - 1])
  {
    var r := p + q[1..];
    forall i | 0 <= i < |r| - 1 ensures Edge(g, r[i], r[i + 1]) {
      if i >= |p| - 1 {
        assert Edge(g, q[i - (|p| - 1)], q[i - (|p| - 1) + 1]);
      }
    }
  }

  lemma Slice(g: Graph, p: seq<nat>, i: nat, j: nat)
    requires Walk(g, p) && i < j <= |p|
    ensures Joins(g, p[i..j], p[i], p[j - 1])
  {
    forall k | 0 <= k < j - i - 1 ensures Edge(g, p[i..j][k], p[i..j][k + 1]) {
      assert Edge(g, p[i + k], p[i + k + 1]);
    }
  }

  /** Every walk can be shortened to one that repeats no node. */
  lemma {:induction false} Shorten(g: Graph, p: seq<nat>) returns (q: seq<nat>)
    requires Walk(g, p)
    ensures Joins(g, q, p[0], p[|p| - 1]) && Distinct(q)
    decreases |p|
  {
    if Distinct(p) {
      q := p;
    } else {
      var i, j :| 0 <= i < j < |p| && p[i] == p[j];
      Slice(g, p, 0, i + 1);
      Slice(g, p, j, |p|);
      Concat(g, p[0..i + 1], p[j..|p|]);
      q := Shorten(g, p[0..i + 1] + p[j..|p|][1..]);
    }
  }

  // ---------- Replacing the edges of one node ----------

  /** The graphs agree except for the edges out of t. */
  ghost predicate SameBut(g: Graph, h: Graph, t: nat) {
    forall a, b :: a != t ==> (Edge(g, a, b) <==> Edge(h, a, b))
  }

  lemma WalkAvoiding(g: Graph, h: Graph, t: nat, p: seq<nat>)
    requires SameBut(g, h, t) && Walk(h, p) && t !in p[..|p| - 1]
    ensures Walk(g, p)
  {
    forall i | 0 <= i < |p| - 1 ensures Edge(g, p[i], p[i + 1]) {
      assert p[i] == p[..|p| - 1][i];
      assert Edge(h, p[i], p[i + 1]);
    }
  }

  /** The first return of t to itself along a closed walk. */
  lemma {:induction false} FirstReturn(p: seq<nat>, t: nat, k: nat) returns (j: nat)
    requires 1 <= k < |p| && p[|p| - 1] == t
    ensures k <= j < |p| && p[j] == t && t !in p[k..j]
    decreases |p| - k
  {
    if p[k] == t {
      j := k;
    } else {
      j := FirstReturn(p, t, k + 1);
      assert p[k..j] == [p[k]] + p[k + 1..j];
    }
  }

  /** A cycle through t in the new graph gives one in the old graph. */
  lemma OldCycle(g: Graph, h: Graph, t: nat, q: seq<nat>) returns (w: seq<nat>)
    requires SameBut(g, h, t)
    requires forall s :: Edge(h, t, s) ==> Edge(g, t, s) || !Reach(h, s, t)
    requires |q| >= 2 && Joins(h, q, t, t)
    ensures |w| >= 2 && Joins(g, w, t, t)
  {
    Slice(h, q, 1, |q|);
    assert Edge(h, q[0], q[0 + 1]);
    assert Joins(h, q[1..|q|], q[1], t);
    assert Edge(g, t, q[1]);
    var j := FirstReturn(q, t, 1);
    Slice(h, q, 1, j + 1);
    assert q[1..j + 1][..j - 1] == q[1..j];
    WalkAvoiding(g, h, t, q[1..j + 1]);
    assert Walk(g, [t, q[1]]);
    Concat(g, [t, q[1]], q[1..j + 1]);
    w := [t, q[1]] + q[1..j + 1][1..];
  }

  /** A cycle can start at any of its nodes. */
  lemma Rotate(g: Graph, p: seq<nat>, k: nat) returns (q: seq<nat>)
    requires Walk(g, p) && |p| >= 2 && p[0] == p[|p| - 1] && k < |p| - 1
    ensures |q| >= 2 && Joins(g, q, p[k], p[k])
  {
    Slice(g, p, k, |p|);
    Slice(g, p, 0, k + 1);
    Concat(g, p[k..|p|], p[0..k + 1]);
    q := p[k..|p|] + p[0..k + 1][1..];
  }

  /** Changing the edges of one node adds no cycle if every new edge leads to where the node cannot be reached. */
  lemma ReplaceKeepsAcyclic(g: Graph, h: Graph, t: nat)
    requires Acyclic(g) && SameBut(g, h, t)
    requires forall s :: Edge(h, t, s) ==> Edge(g, t, s) || !Reach(h, s, t)
    ensures Acyclic(h)
  {
    forall p | Walk(h, p) && |p| >= 2 ensures p[0] != p[|p| - 1] {
      if p[0] == p[|p| - 1] {
        if t in p[..|p| - 1] {
          var k :| 0 <= k < |p| - 1 && p[k] == t;
          var q := Rotate(h, p, k);
          var _ := OldCycle(g, h, t, q);
        } else {
          WalkAvoiding(g, h, t, p);
        }
      }
    }
  }

  /** Fewer edges make no new cycle. */
  lemma FewerKeepsAcyclic(g: Graph, h: Graph)
    requires Acyclic(g) && forall a, b :: Edge(h, a, b) ==> Edge(g, a, b)
    ensures Acyclic(h)
  {
    forall p | Walk(h, p) && |p| >= 2 ensures p[0] != p[|p| - 1] {
      forall i | 0 <= i < |p| - 1 ensures Edge(g, p[i], p[i + 1]) {
        assert Edge(h, p[i], p[i + 1]);
      }
      assert Walk(g, p);
    }
  }

  // ---------- The search ----------

  const PATH_LIMIT: nat := 256

  /** Does goal seem reachable? The search gives up, and says yes, on a path of 256 nodes. */
  predicate Reaches(g: Graph, node: nat, goal: nat, seen: seq<nat>)
    requires Closed(g) && node in g
    decreases PATH_LIMIT - |seen|
  {
    || node == goal
    || |seen| >= PATH_LIMIT
    || (node !in seen && exists s | s in g[node] :: assert Edge(g, node, s); Reaches(g, s, goal, seen + [node]))
  }

  /** A walk that meets no node twice, and none already on the path, is found. */
  lemma {:induction false} FindsWalk(g: Graph, p: seq<nat>, goal: nat, seen: seq<nat>)
    requires Closed(g) && |p| >= 1 && p[0] in g && Joins(g, p, p[0], goal) && Distinct(p)
    requires forall i :: 0 <= i < |p| ==> p[i] !in seen
    ensures Reaches(g, p[0], goal, seen)
    decreases |p|
  {
    if p[0] != goal && |seen| < PATH_LIMIT {
      assert Edge(g, p[0], p[0 + 1]);
      Slice(g, p, 1, |p|);
      assert p[1..|p|] == p[1..];
      FindsWalk(g, p[1..], goal, seen + [p[0]]);
    }
  }

  /** If the search says no, there is no walk at all. */
  lemma SearchComplete(g: Graph, node: nat, goal: nat)
    requires Closed(g) && node in g && !Reaches(g, node, goal, [])
    ensures !Reach(g, node, goal)
  {
    if Reach(g, node, goal) {
      var p :| Joins(g, p, node, goal);
      var q := Shorten(g, p);
      FindsWalk(g, q, goal, []);
    }
  }

  /** With at most 256 nodes the search is exact: the limit on the path is never met. */
  lemma {:induction false} SearchSound(g: Graph, node: nat, goal: nat, seen: seq<nat>)
    requires Closed(g) && node in g && goal in g && |g.Keys| <= PATH_LIMIT
    requires Distinct(seen) && goal !in seen && forall x :: x in seen ==> x in g
    requires Reaches(g, node, goal, seen)
    ensures Reach(g, node, goal)
    decreases PATH_LIMIT - |seen|
  {
    if node == goal {
      assert Joins(g, [node], node, goal);
    } else {
      DistinctFits(seen + [goal], g.Keys);
      var s :| s in g[node] && Edge(g, node, s) && Reaches(g, s, goal, seen + [node]);
      SearchSound(g, s, goal, seen + [node]);
      var p :| Joins(g, p, s, goal);
      assert Walk(g, [node, s]);
      Concat(g, [node, s], p);
      assert Joins(g, [node, s] + p[1..], node, goal);
    }
  }

  lemma {:induction false} DistinctFits(p: seq<nat>, all: set<nat>)
    requires Distinct(p) && forall x :: x in p ==> x in all
    ensures |p| <= |all|
    decreases |p|
  {
    if |p| > 0 {
      DistinctFits(p[1..], all - {p[0]});
    }
  }

  // ---------- Counting ----------

  function UpTo(n: nat): set<nat> {
    if n == 0 then {} else UpTo(n - 1) + {n - 1}
  }

  lemma {:induction false} Indices(n: nat)
    ensures |UpTo(n)| == n && forall x: nat :: x in UpTo(n) <==> x < n
  {
    if n > 0 {
      Indices(n - 1);
    }
  }

  lemma {:induction false} SubsetSize(a: set<nat>, b: set<nat>)
    requires a <= b
    ensures |a| <= |b|
    decreases |a|
  {
    if a != {} {
      var x :| x in a;
      SubsetSize(a - {x}, b - {x});
    }
  }

  /** n distinct indices below n leave none out. */
  lemma Onto(tab: seq<int>, n: nat, i: nat) returns (s: nat)
    requires |tab| == n && i < n && forall s :: 0 <= s < n ==> 0 <= tab[s] < n
    requires forall s, t :: 0 <= s < t < n ==> tab[s] != tab[t]
    ensures s < n && tab[s] == i
  {
    if k: nat :| k < n && tab[k] == i {
      s := k;
    } else {
      var p := seq(n, s requires 0 <= s < n => tab[s] as nat);
      Indices(n);
      DistinctFits(p, UpTo(n) - {i});
      assert false;
    }
  }
}
