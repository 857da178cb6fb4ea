/** The wait-for graph of synchronous actor calls: it refuses a call that would close a ring. */
module CallGraph {
  import opened Options
  import opened Graphs

  /** caller waits for callee. */
  datatype Call = Call(caller: nat, callee: nat)

  const MAX_EDGES: nat := 1024

  // ---------- Edge lists ----------

  /** At most one recorded edge per caller. */
  ghost predicate OneEach(es: seq<Call>) {
    forall i, j :: 0 <= i < j < |es| ==> es[i].caller != es[j].caller
  }

  function Callers(es: seq<Call>): set<nat> {
    set e | e in es :: e.caller
  }

  /** The callees recorded for a caller. */
  function CalleesOf(es: seq<Call>, c: nat): set<nat> {
    set e | e in es && e.caller == c :: e.callee
  }

  function GraphOf(es: seq<Call>): Graph {
    map c | c in Callers(es) :: CalleesOf(es, c)
  }

  lemma EdgeIsCall(es: seq<Call>, a: nat, b: nat)
    ensures Edge(GraphOf(es), a, b) <==> Call(a, b) in es
  {
    if Call(a, b) in es {
      assert a in Callers(es) && b in CalleesOf(es, a);
    }
  }

  /** What the first recorded edge of c leads to. */
  function Next(es: seq<Call>, c: nat): Option<nat> {
    if es == [] then None else if es[0].caller == c then Some(es[0].callee) else Next(es[1..], c)
  }

  lemma {:induction false} NextIsEdge(es: seq<Call>, c: nat)
    requires OneEach(es)
    ensures forall d: nat :: Next(es, c) == Some(d) <==> Call(c, d) in es
  {
    if es != [] {
      assert es == [es[0]] + es[1..];
      NextIsEdge(es[1..], c);
      forall d: nat | es[0].caller == c && Call(c, d) in es ensures es[0] == Call(c, d) {
        var i :| 0 <= i < |es| && es[i] == Call(c, d);
      }
    }
  }

  /** n steps along first edges meet target. */
  predicate Meets(es: seq<Call>, c: nat, target: nat, n: nat)
    decreases n
  {
    n > 0 && var d := Next(es, c); d.Some? && (d.value == target || Meets(es, d.value, target, n - 1))
  }

  lemma {:induction false} MeetsIsWalk(es: seq<Call>, c: nat, target: nat, n: nat)
    requires OneEach(es) && Meets(es, c, target, n)
    ensures Reach(GraphOf(es), c, target)
    decreases n
  {
    NextIsEdge(es, c);
    var g, d := GraphOf(es), Next(es, c).value;
    EdgeIsCall(es, c, d);
    assert Call(c, d) in es;
    if d == target {
      assert Joins(g, [c, d], c, target);
    } else {
      MeetsIsWalk(es, d, target, n - 1);
      var p :| Joins(g, p, d, target);
      assert Walk(g, [c, d]);
      Concat(g, [c, d], p);
      assert Joins(g, [c, d] + p[1..], c, target);
    }
  }

  lemma {:induction false} WalkIsMet(es: seq<Call>, p: seq<nat>, target: nat, n: nat)
    requires OneEach(es) && |p| >= 2 && Joins(GraphOf(es), p, p[0], target) && |p| - 1 <= n
    ensures Meets(es, p[0], target, n)
    decreases |p|
  {
    var g := GraphOf(es);
    assert Edge(g, p[0], p[0 + 1]);
    EdgeIsCall(es, p[0], p[1]);
    NextIsEdge(es, p[0]);
    assert Next(es, p[0]) == Some(p[1]);
    if p[1] != target {
      Slice(g, p, 1, |p|);
      assert p[1..|p|] == p[1..];
      WalkIsMet(es, p[1..], target, n - 1);
    }
  }

  lemma {:induction false} CallersFit(es: seq<Call>)
    ensures |Callers(es)| <= |es|
  {
    if es == [] {
      assert Callers(es) == {};
    } else {
      assert es == [es[0]] + es[1..];
      assert Callers(es) == {es[0].caller} + Callers(es[1..]);
      CallersFit(es[1..]);
    }
  }

  /** As many hops as there are edges decide reachability. */
  lemma HopsDecide(es: seq<Call>, start: nat, target: nat)
    requires OneEach(es)
    ensures start == target || Meets(es, start, target, |es|) <==> Reach(GraphOf(es), start, target)
  {
    var g := GraphOf(es);
    if start == target {
      assert Joins(g, [start], start, target);
    } else if Meets(es, start, target, |es|) {
      MeetsIsWalk(es, start, target, |es|);
    } else if Reach(g, start, target) {
      var p :| Joins(g, p, start, target);
      var q := Shorten(g, p);
      forall i | 0 <= i < |q| - 1 ensures q[i] in Callers(es) {
        assert Edge(g, q[i], q[i + 1]);
        EdgeIsCall(es, q[i], q[i + 1]);
      }
      DistinctFits(q[..|q| - 1], Callers(es));
      CallersFit(es);
      WalkIsMet(es, q, target, |es|);
    }
  }

  // ---------- Adding and removing edges ----------

  lemma AddKeepsAcyclic(es: seq<Call>, a: nat, b: nat)
    requires OneEach(es) && Acyclic(GraphOf(es)) && a !in Callers(es) && !Reach(GraphOf(es), b, a)
    ensures OneEach(es + [Call(a, b)]) && Acyclic(GraphOf(es + [Call(a, b)]))
  {
    var g, h := GraphOf(es), GraphOf(es + [Call(a, b)]);
    forall x, y | x != a ensures Edge(g, x, y) <==> Edge(h, x, y) {
      EdgeIsCall(es, x, y);
      EdgeIsCall(es + [Call(a, b)], x, y);
    }
    forall s | Edge(h, a, s) ensures !Reach(h, s, a) {
      EdgeIsCall(es + [Call(a, b)], a, s);
      assert Call(a, s) in es ==> a in Callers(es);
      assert s == b;
      if Reach(h, b, a) {
        ReachAvoiding(g, h, a, b);
      }
    }
    ReplaceKeepsAcyclic(g, h, a);
  }

  /** What reaches t with t's edges changed reached it before. */
  lemma ReachAvoiding(g: Graph, h: Graph, t: nat, s: nat)
    requires SameBut(g, h, t) && Reach(h, s, t)
    ensures Reach(g, s, t)
  {
    var p :| Joins(h, p, s, t);
    var q := [s] + p;
    assert q[|q| - 1] == t;
    var j := FirstReturn(q, t, 1);
    assert p[0..j] == q[1..j + 1];
    Slice(h, p, 0, j);
    assert p[0..j][..j - 1] == q[1..j];
    WalkAvoiding(g, h, t, p[0..j]);
    assert Joins(g, p[0..j], s, t);
  }

  lemma FewerKeeps(es: seq<Call>, fs: seq<Call>)
    requires Acyclic(GraphOf(es)) && forall e :: e in fs ==> e in es
    ensures Acyclic(GraphOf(fs))
  {
    forall a, b | Edge(GraphOf(fs), a, b) ensures Edge(GraphOf(es), a, b) {
      EdgeIsCall(es, a, b);
      EdgeIsCall(fs, a, b);
    }
    FewerKeepsAcyclic(GraphOf(es), GraphOf(fs));
  }

  /** The list with its last element moved to i. */
  function SwapOut(es: seq<Call>, i: nat): seq<Call>
    requires i < |es|
  {
    es[i := es[|es| - 1]][..|es| - 1]
  }

  lemma SwapOutMeans(es: seq<Call>, i: nat)
    requires i < |es| && OneEach(es)
    ensures OneEach(SwapOut(es, i)) && forall e :: e in SwapOut(es, i) <==> e in es && e != es[i]
  {
    var r := SwapOut(es, i);
    forall e | e in es && e != es[i] ensures e in r {
      var j :| 0 <= j < |es| && es[j] == e;
      assert if j == |es| - 1 then r[i] == e else r[j] == e;
    }
    forall e | e in r ensures e in es && e != es[i] {
      var j :| 0 <= j < |r| && r[j] == e;
      assert e == if j == i then es[|es| - 1] else es[j];
    }
  }

  // ---------- The recorded edges and the calls they stand for ----------

  /** Outstanding calls, callers with an unrecorded one because the table was full, and callers whose callee has
      exited. */
  datatype Calls = Calls(waiting: map<nat, nat>, dropped: set<nat>, failed: set<nat>)

  /** The table records exactly the outstanding calls it had room for and whose callee has not exited. */
  ghost predicate Records(es: seq<Call>, w: Calls) {
    && 0 !in w.waiting
    && forall c, d :: Call(c, d) in es <==> c in w.waiting && w.waiting[c] == d && c !in w.dropped && c !in w.failed
  }

  /** A call that is outstanding now, whether the table has room for it or not. */
  function Waits(w: Calls, c: nat, d: nat, room: bool): Calls {
    Calls(w.waiting[c := d], if room then w.dropped - {c} else w.dropped + {c}, w.failed - {c})
  }

  lemma WaitsRecorded(es: seq<Call>, w: Calls, c: nat, d: nat)
    requires Records(es, w) && c !in w.waiting && c != 0
    ensures Records(es + [Call(c, d)], Waits(w, c, d, true)) && Records(es, Waits(w, c, d, false))
    ensures c !in Callers(es)
  {
    forall e | e in es ensures e.caller != c { assert Call(e.caller, e.callee) in es; }
  }

  function WaitsOn(w: Calls): Graph {
    map c | c in w.waiting :: {w.waiting[c]}
  }

  /** A ring of waiting actors contains a call the table had no room for, or one whose callee has exited. */
  lemma NoRing(es: seq<Call>, w: Calls, p: seq<nat>)
    requires Acyclic(GraphOf(es)) && Records(es, w) && Walk(WaitsOn(w), p) && |p| >= 2 && p[0] == p[|p| - 1]
    ensures exists i :: 0 <= i < |p| - 1 && (p[i] in w.dropped || p[i] in w.failed)
  {
    if forall i :: 0 <= i < |p| - 1 ==> p[i] !in w.dropped && p[i] !in w.failed {
      forall i | 0 <= i < |p| - 1 ensures Edge(GraphOf(es), p[i], p[i + 1]) {
        assert Edge(WaitsOn(w), p[i], p[i + 1]);
        EdgeIsCall(es, p[i], p[i + 1]);
      }
      assert Walk(GraphOf(es), p);
    }
  }

  class WaitGraph {
    const edges: array<Call>
    var n: nat
    ghost var calls: Calls

    function Es(): seq<Call>
      requires n <= edges.Length
      reads this, edges
    {
      edges[..n]
    }

    ghost predicate Valid()
      reads this, edges
    {
      edges.Length == MAX_EDGES && n <= MAX_EDGES && OneEach(Es()) && Acyclic(GraphOf(Es())) && Records(Es(), calls)
    }

    constructor ()
      ensures Valid() && fresh(edges) && n == 0 && calls == Calls(map[], {}, {})
    {
      edges := new Call[MAX_EDGES](_ => Call(0, 0));
      n := 0;
      calls := Calls(map[], {}, {});
      new;
      forall p: seq<nat> | |p| >= 2 ensures !Walk(GraphOf([]), p) {
        assert !Edge(GraphOf([]), p[0], p[0 + 1]);
      }
      assert Es() == [];
    }

    /** o9_path_exists_locked */
    method PathExists(start: nat, target: nat) returns (r: bool)
      requires Valid()
      ensures r <==> start != 0 && target != 0 && Reach(GraphOf(Es()), start, target)
    {
      if start == 0 || target == 0 { return false; }
      HopsDecide(Es(), start, target);
      if start == target { return true; }
      var curr := start;
      for hops := 0 to n
        invariant Meets(Es(), start, target, n) <==> Meets(Es(), curr, target, n - hops)
      {
        var next := Follow(curr);
        if next == None { return false; }
        curr := next.value;
        if curr == target { return true; }
      }
      r := false;
    }

    /** The inner search: the first edge of c. */
    method Follow(c: nat) returns (r: Option<nat>)
      requires n <= edges.Length
      ensures r == Next(Es(), c)
    {
      assert edges[0..n] == edges[..n];
      for i := 0 to n
        invariant Next(Es(), c) == Next(edges[i..n], c)
      {
        if edges[i].caller == c { return Some(edges[i].callee); }
        assert edges[i..n][1..] == edges[i + 1..n];
      }
      r := None;
    }

    /** o9_dag_call_begin; the caller has no call outstanding. */
    method Begin(caller: nat, callee: nat) returns (ok: bool)
      requires Valid() && caller !in calls.waiting
      modifies this, edges
      ensures Valid()
      ensures caller == 0 || callee == 0 ==> ok && Es() == old(Es()) && calls == old(calls)
      ensures caller != 0 && callee != 0 ==> (ok <==> !Reach(GraphOf(old(Es())), callee, caller))
      ensures !ok ==> Es() == old(Es()) && calls == old(calls)
      ensures ok && caller != 0 && callee != 0 ==>
                && calls.waiting == old(calls.waiting)[caller := callee] && calls.failed == old(calls.failed) - {caller}
                && calls.dropped == (if old(n) < MAX_EDGES then old(calls.dropped) - {caller}
                  else old(calls.dropped) + {caller})
    {
      if callee == 0 || caller == 0 { return true; }
      var found := PathExists(callee, caller);
      if caller == callee || found {
        assert caller == callee ==> Joins(GraphOf(Es()), [callee], callee, caller);
        return false;
      }
      AddEdge(caller, callee);
      ok := true;
    }

    /** The edge is added if there is room for it. */
    method AddEdge(caller: nat, callee: nat)
      requires Valid() && caller !in calls.waiting && caller != 0 && callee != 0
      requires !Reach(GraphOf(Es()), callee, caller)
      modifies this, edges
      ensures Valid()
      ensures calls == Waits(old(calls), caller, callee, old(n) < MAX_EDGES)
    {
      ghost var es := Es();
      WaitsRecorded(es, calls, caller, callee);
      calls := Waits(calls, caller, callee, n < MAX_EDGES);
      if n < MAX_EDGES {
        AddKeepsAcyclic(es, caller, callee);
        edges[n] := Call(caller, callee);
        n := n + 1;
        assert Es() == es + [Call(caller, callee)];
      }
    }

    /** o9_dag_call_end */
    method End(caller: nat, callee: nat)
      requires Valid() && (caller != 0 && callee != 0 ==> caller in calls.waiting && calls.waiting[caller] == callee)
      modifies this, edges
      ensures Valid()
      ensures caller == 0 || callee == 0 ==> Es() == old(Es()) && calls == old(calls)
      ensures caller != 0 && callee != 0 ==>
                && calls == Calls(old(calls.waiting) - {caller}, old(calls.dropped) - {caller},
                  old(calls.failed) - {caller})
                && forall e :: e in Es() <==> e in old(Es()) && e.caller != caller
    {
      if callee == 0 || caller == 0 { return; }
      ghost var es := Es();
      Unrecord(Call(caller, callee));
      FewerKeeps(es, Es());
      calls := Calls(calls.waiting - {caller}, calls.dropped - {caller}, calls.failed - {caller});
    }

    /** Drops the first edge equal to e, if there is one. */
    method Unrecord(e: Call)
      requires n <= edges.Length && OneEach(Es())
      modifies this`n, edges
      ensures n <= edges.Length && OneEach(Es())
      ensures forall f :: f in Es() <==> f in old(Es()) && f != e
    {
      ghost var es := Es();
      for i := 0 to n
        invariant Es() == es && n == old(n) && e !in es[..i]
      {
        if edges[i].caller == e.caller && edges[i].callee == e.callee {
          SwapOutMeans(es, i);
          Drop(i);
          return;
        }
      }
      assert es[..n] == es;
    }

    /** The last edge takes the place of edge i. */
    method Drop(i: nat)
      requires i < n <= edges.Length
      modifies this`n, edges
      ensures n == old(n) - 1 && Es() == SwapOut(old(Es()), i)
    {
      edges[i] := edges[n - 1];
      n := n - 1;
    }

    /** o9_dag_actor_exit */
    method ActorExit(a: nat)
      requires Valid()
      modifies this, edges
      ensures Valid()
      ensures a == 0 ==> Es() == old(Es()) && calls == old(calls)
      ensures a != 0 ==>
                && (forall e :: e in Es() <==> e in old(Es()) && e.caller != a && e.callee != a)
                && calls == Calls(old(calls.waiting) - {a}, old(calls.dropped),
                                  old(calls.failed) + set c | c in old(calls.waiting) && old(calls.waiting)[c] == a)
    {
      if a == 0 { return; }
      ghost var es := Es();
      Purge(a);
      FewerKeeps(es, Es());
      calls := Calls(calls.waiting - {a}, calls.dropped,
                     calls.failed + set c | c in calls.waiting && calls.waiting[c] == a);
    }

    /** Drops every edge that touches a. */
    method Purge(a: nat)
      requires n <= edges.Length && OneEach(Es())
      modifies this`n, edges
      ensures n <= edges.Length && OneEach(Es())
      ensures forall e :: e in Es() <==> e in old(Es()) && e.caller != a && e.callee != a
    {
      ghost var es := Es();
      var i := 0;
      while i < n
        invariant 0 <= i <= n <= edges.Length && OneEach(Es())
        invariant forall e :: e in Es() ==> e in es
        invariant forall e :: e in es && e.caller != a && e.callee != a ==> e in Es()
        invariant forall j :: 0 <= j < i ==> Es()[j].caller != a && Es()[j].callee != a
        decreases n - i
      {
        if edges[i].caller == a || edges[i].callee == a {
          ghost var before := Es();
          SwapOutMeans(before, i);
          Drop(i);
          assert forall j :: 0 <= j < i ==> Es()[j] == before[j];
        } else {
          i := i + 1;
        }
      }
    }
  }
}
