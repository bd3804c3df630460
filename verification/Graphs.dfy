/** Finite dependency graphs: reachability, acyclicity, and what one new set of edges does to both. */
module Graphs {

  type Graph = map<string, seq<string>>

  function Deps(g: Graph, n: string): seq<string> { if n in g then g[n] else [] }

  ghost predicate Path(g: Graph, p: seq<string>)
  {
    |p| >= 1 && forall k :: 0 <= k < |p| - 1 ==> p[k + 1] in Deps(g, p[k])
  }

  ghost predicate PathFromTo(g: Graph, p: seq<string>, a: string, b: string)
  {
    Path(g, p) && p[0] == a && p[|p| - 1] == b
  }

  /** `b` is `a` or one of its direct or indirect dependencies. */
  ghost predicate Reaches(g: Graph, a: string, b: string) { exists p :: PathFromTo(g, p, a, b) }

  /** `b` is a direct or indirect dependency of `a`. */
  ghost predicate DependsOn(g: Graph, a: string, b: string)
  {
    exists d :: d in Deps(g, a) && Reaches(g, d, b)
  }

  ghost predicate Acyclic(g: Graph) { forall n :: !DependsOn(g, n, n) }

  lemma ReachesSelf(g: Graph, a: string)
    ensures Reaches(g, a, a)
  {
    assert PathFromTo(g, [a], a, a);
  }

  lemma ReachesTransitive(g: Graph, a: string, b: string, c: string)
    requires Reaches(g, a, b) && Reaches(g, b, c)
    ensures Reaches(g, a, c)
  {
    var p :| PathFromTo(g, p, a, b);
    var q :| PathFromTo(g, q, b, c);
    assert PathFromTo(g, p + q[1..], a, c);
  }

  lemma ReachesThroughDep(g: Graph, a: string, d: string, c: string)
    requires d in Deps(g, a) && Reaches(g, d, c)
    ensures Reaches(g, a, c) && DependsOn(g, a, c)
  {
    assert PathFromTo(g, [a, d], a, d);
    ReachesTransitive(g, a, d, c);
  }

  /** Reaching is being there already, or going through a dependency. */
  lemma ReachesUnfold(g: Graph, a: string, b: string)
    ensures Reaches(g, a, b) <==> a == b || DependsOn(g, a, b)
  {
    ReachesSelf(g, a);
    if Reaches(g, a, b) && a != b {
      var p :| PathFromTo(g, p, a, b);
      assert PathFromTo(g, p[1..], p[1], b);
    }
    if DependsOn(g, a, b) {
      var d :| d in Deps(g, a) && Reaches(g, d, b);
      ReachesThroughDep(g, a, d, b);
    }
  }

  lemma DependsOnTransitive(g: Graph, a: string, b: string, c: string)
    requires (Reaches(g, a, b) && DependsOn(g, b, c)) || (DependsOn(g, a, b) && Reaches(g, b, c))
    ensures DependsOn(g, a, c)
  {
    if DependsOn(g, a, b) && Reaches(g, b, c) {
      var d :| d in Deps(g, a) && Reaches(g, d, b);
      ReachesTransitive(g, d, b, c);
    } else {
      ReachesUnfold(g, a, b);
      if a != b {
        var d :| d in Deps(g, a) && Reaches(g, d, b);
        ReachesUnfold(g, b, c);
        ReachesTransitive(g, d, b, c);
      }
    }
  }

  /** A set closed under dependencies holds everything reachable from its members. */
  lemma {:induction false} ClosedSetHoldsPath(g: Graph, s: set<string>, p: seq<string>)
    requires Path(g, p) && p[0] in s
    requires forall n, d :: n in s && d in Deps(g, n) ==> d in s
    ensures p[|p| - 1] in s
  {
    if |p| > 1 { ClosedSetHoldsPath(g, s, p[1..]); }
  }

  lemma ClosedSetHoldsReachable(g: Graph, s: set<string>, a: string, b: string)
    requires a in s && Reaches(g, a, b)
    requires forall n, d :: n in s && d in Deps(g, n) ==> d in s
    ensures b in s
  {
    var p :| PathFromTo(g, p, a, b);
    ClosedSetHoldsPath(g, s, p);
  }

  /** Every node that has dependencies or is one. */
  ghost function Nodes(g: Graph): set<string>
  {
    g.Keys + set n, d | n in g.Keys && d in g[n] :: d
  }

  ghost predicate AllDependOn(g: Graph, path: set<string>, n: string)
  {
    forall a :: a in path ==> DependsOn(g, a, n)
  }

  lemma StackGrows(g: Graph, path: set<string>, n: string, d: string)
    requires AllDependOn(g, path, n) && d in Deps(g, n)
    ensures AllDependOn(g, path + {n}, d)
  {
    ReachesSelf(g, d);
    ReachesThroughDep(g, n, d, d);
    forall a | a in path ensures DependsOn(g, a, d) { DependsOnTransitive(g, a, n, d); }
  }

  /**
   Walking down an acyclic graph: the nodes passed so far all depend on the current node `n`, so `n` is new, and
   stepping on to a dependency of `n` leaves fewer nodes unvisited.
   */
  lemma ExtendPath(g: Graph, path: set<string>, n: string, d: string)
    requires Acyclic(g) && d in Deps(g, n)
    requires AllDependOn(g, path, n)
    ensures n !in path
    ensures AllDependOn(g, path + {n}, d)
    ensures |Nodes(g) - (path + {n})| < |Nodes(g) - path|
  {
    StackGrows(g, path, n, d);
    assert n in Nodes(g) - path;
    assert Nodes(g) - (path + {n}) == Nodes(g) - path - {n};
  }

  // ---------- adding edges from one node ----------

  /** `g2` is `g` plus edges from `name` to every member of `added`. */
  ghost predicate Extends(g: Graph, g2: Graph, name: string, added: seq<string>)
  {
    && Deps(g2, name) == Deps(g, name) + added
    && forall n :: n != name ==> Deps(g2, n) == Deps(g, n)
  }

  lemma ReachesMonotone(g: Graph, g2: Graph, name: string, added: seq<string>, a: string, b: string)
    requires Extends(g, g2, name, added) && Reaches(g, a, b)
    ensures Reaches(g2, a, b)
  {
    var p :| PathFromTo(g, p, a, b);
    forall k | 0 <= k < |p| - 1 ensures p[k + 1] in Deps(g2, p[k]) {
      assert p[k + 1] in Deps(g, p[k]);
      assert p[k] != name ==> Deps(g2, p[k]) == Deps(g, p[k]);
    }
    assert PathFromTo(g2, p, a, b);
  }

  /** Up to its first visit of `name`, a path of the extended graph is a path of the old one. */
  lemma {:induction false} ReachesBeforeNewEdges(
      g: Graph, g2: Graph, name: string, added: seq<string>, p: seq<string>)
    requires Extends(g, g2, name, added) && Path(g2, p) && p[|p| - 1] == name
    ensures Reaches(g, p[0], name)
  {
    if p[0] == name {
      ReachesSelf(g, name);
    } else {
      assert p[1] in Deps(g2, p[0]);
      ReachesBeforeNewEdges(g, g2, name, added, p[1..]);
      ReachesThroughDep(g, p[0], p[1], name);
    }
  }

  /** A path of the extended graph that is none of the old graph uses one of the new edges. */
  lemma {:induction false} FindNewEdge(g: Graph, g2: Graph, name: string, added: seq<string>, p: seq<string>)
      returns (k: nat)
    requires Extends(g, g2, name, added) && Path(g2, p) && !Path(g, p)
    ensures k < |p| - 1 && p[k] == name && p[k + 1] in added
  {
    k :| 0 <= k < |p| - 1 && p[k + 1] !in Deps(g, p[k]);
    assert p[k + 1] in Deps(g2, p[k]);
  }

  /** A cycle as one path that returns to its start. */
  lemma CycleAsPath(g: Graph, n: string) returns (p: seq<string>)
    requires DependsOn(g, n, n)
    ensures |p| >= 2 && Path(g, p) && p[0] == n && p[|p| - 1] == n
  {
    var d :| d in Deps(g, n) && Reaches(g, d, n);
    var q :| PathFromTo(g, q, d, n);
    p := [n] + q;
  }

  lemma PathAsCycle(g: Graph, p: seq<string>)
    requires |p| >= 2 && Path(g, p) && p[0] == p[|p| - 1]
    ensures DependsOn(g, p[0], p[0])
  {
    assert PathFromTo(g, p[1..], p[1], p[0]);
    assert p[1] in Deps(g, p[0]);
  }

  /** A cycle, turned so that it starts behind the edge from position `k`. */
  lemma Rotate(g: Graph, p: seq<string>, k: nat) returns (back: seq<string>)
    requires |p| >= 2 && Path(g, p) && p[0] == p[|p| - 1] && k < |p| - 1
    ensures Path(g, back) && back[0] == p[k + 1] && back[|back| - 1] == p[k]
  {
    var front := p[k + 1..];
    back := front + p[1..k + 1];
    assert front[|front| - 1] == p[0];
    forall j | 0 <= j < |back| - 1 ensures back[j + 1] in Deps(g, back[j]) {
      if j < |front| - 1 {
        assert p[k + 1 + j + 1] in Deps(g, p[k + 1 + j]);
      } else {
        var at := j - (|front| - 1);
        assert back[j] == p[at] && back[j + 1] == p[at + 1];
      }
    }
  }

  /** A cycle of the extended graph uses a new edge, whose target reached `name` before. */
  lemma CycleUsesNewEdge(g: Graph, g2: Graph, name: string, added: seq<string>, n: string) returns (d: string)
    requires Acyclic(g) && Extends(g, g2, name, added) && DependsOn(g2, n, n)
    ensures d in added && Reaches(g, d, name)
  {
    var p := CycleAsPath(g2, n);
    if Path(g, p) { PathAsCycle(g, p); }
    var k := FindNewEdge(g, g2, name, added, p);
    var back := Rotate(g2, p, k);
    ReachesBeforeNewEdges(g, g2, name, added, back);
    d := p[k + 1];
  }

  /** A new edge to a target that reaches `name` closes a cycle through `name`. */
  lemma NewEdgeClosesCycle(g: Graph, g2: Graph, name: string, added: seq<string>, d: string)
    requires Extends(g, g2, name, added) && d in added && Reaches(g, d, name)
    ensures DependsOn(g2, name, name)
  {
    ReachesMonotone(g, g2, name, added, d, name);
    assert d in Deps(g2, name) && Reaches(g2, d, name);
  }

  /** Adding edges from `name` closes a cycle exactly when `name` was reachable from one of their targets. */
  lemma CycleIffTargetReaches(g: Graph, g2: Graph, name: string, added: seq<string>)
    requires Acyclic(g) && Extends(g, g2, name, added)
    ensures !Acyclic(g2) <==> exists d :: d in added && Reaches(g, d, name)
    ensures !Acyclic(g2) <==> DependsOn(g2, name, name)
  {
    hide Reaches, DependsOn, Extends;
    if !Acyclic(g2) {
      var n :| DependsOn(g2, n, n);
      var d := CycleUsesNewEdge(g, g2, name, added, n);
      NewEdgeClosesCycle(g, g2, name, added, d);
    }
    if d :| d in added && Reaches(g, d, name) { NewEdgeClosesCycle(g, g2, name, added, d); }
  }

  // ---------- what a traversal adds ----------

  /** A set of nodes has only grown, by nodes reachable from `n`. */
  ghost predicate GrownBelow(g: Graph, n: string, before: set<string>, now: set<string>)
  {
    before <= now && forall m :: m in now && m !in before ==> Reaches(g, n, m)
  }

  lemma NotGrown(g: Graph, n: string, s: set<string>)
    ensures GrownBelow(g, n, s, s)
  {}

  lemma GrownThroughDep(g: Graph, n: string, d: string, before: set<string>, mid: set<string>, now: set<string>)
    requires d in Deps(g, n) && GrownBelow(g, n, before, mid) && GrownBelow(g, d, mid, now)
    ensures GrownBelow(g, n, before, now) && mid <= now
  {
    hide Reaches;
    forall m | m in now && m !in before ensures Reaches(g, n, m) {
      if m !in mid { ReachesThroughDep(g, n, d, m); }
    }
  }
}
