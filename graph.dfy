/**
 * The undirected location graph as a value: a map from location name to the
 * set of neighbouring names (`GameState.location_graph`), with the edge edits
 * the narrator's connection updates perform and the reachability notion that
 * the breadth-first component search computes.
 */
module Graph {

  type Adjacency = map<string, set<string>>

  /** The graph's invariant: every edge is listed from both ends. */
  ghost predicate Symmetric(g: Adjacency)
  {
    forall a, b {:trigger b in g[a]} :: a in g && b in g[a] ==> b in g && a in g[b]
  }

  /** `graph.setdefault(n, set())` as `_get_or_create_location_unsafe` performs it for a new name. */
  function EnsureNode(g: Adjacency, n: string): (r: Adjacency)
    ensures n in r && r.Keys == g.Keys + {n}
    ensures forall x :: x in g ==> r[x] == g[x]
    ensures n !in g ==> r[n] == {}
  {
    if n in g then g else g[n := {}]
  }

  /** CREATE: `graph[a].add(b); graph[b].add(a)`. */
  function AddEdge(g: Adjacency, a: string, b: string): (r: Adjacency)
    requires a in g && b in g
    ensures r.Keys == g.Keys
    ensures b in r[a] && a in r[b]
    ensures forall x, y :: x in g ==> (y in r[x] <==> y in g[x] || (x == a && y == b) || (x == b && y == a))
  {
    var g1 := g[a := g[a] + {b}];
    g1[b := g1[b] + {a}]
  }

  /** DESTROY: `graph[a].discard(b); graph[b].discard(a)`. */
  function RemoveEdge(g: Adjacency, a: string, b: string): (r: Adjacency)
    requires a in g && b in g
    ensures r.Keys == g.Keys
    ensures b !in r[a] && a !in r[b]
    ensures forall x, y :: x in g ==> (y in r[x] <==> y in g[x] && !(x == a && y == b) && !(x == b && y == a))
  {
    var g1 := g[a := g[a] - {b}];
    g1[b := g1[b] - {a}]
  }

  lemma EnsureNodeSymmetric(g: Adjacency, n: string)
    requires Symmetric(g)
    ensures Symmetric(EnsureNode(g, n))
  {
  }

  lemma AddEdgeSymmetric(g: Adjacency, a: string, b: string)
    requires a in g && b in g && Symmetric(g)
    ensures Symmetric(AddEdge(g, a, b))
  {
  }

  lemma RemoveEdgeSymmetric(g: Adjacency, a: string, b: string)
    requires a in g && b in g && Symmetric(g)
    ensures Symmetric(RemoveEdge(g, a, b))
  {
  }

  /** Creating an edge twice leaves one edge. */
  lemma AddEdgeIdempotent(g: Adjacency, a: string, b: string)
    requires a in g && b in g
    ensures AddEdge(AddEdge(g, a, b), a, b) == AddEdge(g, a, b)
  {
    var r1 := AddEdge(g, a, b);
    var r2 := AddEdge(r1, a, b);
    forall x | x in r1 ensures r2[x] == r1[x] {
    }
  }

  /** Destroying an edge twice, or an edge that is not there, changes nothing more. */
  lemma RemoveEdgeIdempotent(g: Adjacency, a: string, b: string)
    requires a in g && b in g
    ensures RemoveEdge(RemoveEdge(g, a, b), a, b) == RemoveEdge(g, a, b)
    ensures b !in g[a] && a !in g[b] ==> RemoveEdge(g, a, b) == g
  {
    var r1 := RemoveEdge(g, a, b);
    var r2 := RemoveEdge(r1, a, b);
    forall x | x in r1 ensures r2[x] == r1[x] {
    }
    if b !in g[a] && a !in g[b] {
      forall x | x in g ensures r1[x] == g[x] {
      }
    }
  }

  /** A walk: consecutive names are joined by an edge. */
  ghost predicate IsWalk(g: Adjacency, p: seq<string>)
  {
    |p| > 0 && forall i :: 0 <= i < |p| - 1 ==> p[i] in g && p[i + 1] in g[p[i]]
  }

  /** `t` can be reached from `s` by following edges. */
  ghost predicate Reachable(g: Adjacency, s: string, t: string)
  {
    exists p :: IsWalk(g, p) && p[0] == s && p[|p| - 1] == t
  }

  /** A set is closed when it holds every neighbour of each of its members. */
  ghost predicate Closed(g: Adjacency, s: set<string>)
  {
    forall x, y {:trigger y in g[x]} :: x in s && x in g && y in g[x] ==> y in s
  }

  /** A closed set that holds the start of a walk holds its end. */
  lemma {:induction false} ClosedHoldsWalkEnd(g: Adjacency, s: set<string>, p: seq<string>)
    requires IsWalk(g, p) && p[0] in s && Closed(g, s)
    ensures p[|p| - 1] in s
  {
    if |p| > 1 {
      var q := p[..|p| - 1];
      assert IsWalk(g, q) by {
        forall i | 0 <= i < |q| - 1 ensures q[i] in g && q[i + 1] in g[q[i]] {
          assert q[i] == p[i] && q[i + 1] == p[i + 1];
        }
      }
      ClosedHoldsWalkEnd(g, s, q);
      assert p[|p| - 2] in g && p[|p| - 1] in g[p[|p| - 2]];
    }
  }

  /** Extending a walk by one edge gives a walk. */
  lemma WalkExtend(g: Adjacency, p: seq<string>, n: string)
    requires IsWalk(g, p) && p[|p| - 1] in g && n in g[p[|p| - 1]]
    ensures IsWalk(g, p + [n])
  {
    var q := p + [n];
    forall i | 0 <= i < |q| - 1 ensures q[i] in g && q[i + 1] in g[q[i]] {
      if i < |p| - 1 {
        assert q[i] == p[i] && q[i + 1] == p[i + 1];
      }
    }
  }

  /** Following one more edge from a reachable name reaches its neighbour. */
  lemma ReachableExtend(g: Adjacency, s: string, x: string, y: string)
    requires Reachable(g, s, x) && x in g && y in g[x]
    ensures Reachable(g, s, y)
  {
    var p :| IsWalk(g, p) && p[0] == s && p[|p| - 1] == x;
    WalkExtend(g, p, y);
    assert (p + [y])[|p|] == y;
  }

  /** In a symmetric graph everything reachable from a node of the graph is a node of the graph. */
  lemma ReachableStaysInGraph(g: Adjacency, s: string, t: string)
    requires Symmetric(g) && s in g && Reachable(g, s, t)
    ensures t in g
  {
    var p :| IsWalk(g, p) && p[0] == s && p[|p| - 1] == t;
    if |p| > 1 {
      assert p[|p| - 2] in g && p[|p| - 1] in g[p[|p| - 2]];
    }
  }

  /** From a name that is not in the graph only the name itself is reachable. */
  lemma ReachableFromMissing(g: Adjacency, s: string, t: string)
    requires s !in g
    ensures Reachable(g, s, t) <==> t == s
  {
    if Reachable(g, s, t) {
      var p :| IsWalk(g, p) && p[0] == s && p[|p| - 1] == t;
      assert |p| == 1;
    }
    if t == s {
      assert IsWalk(g, [s]);
    }
  }
  /** A walk read backwards. */
  function Backwards(p: seq<string>): (r: seq<string>)
    ensures |r| == |p| && forall i :: 0 <= i < |p| ==> r[i] == p[|p| - 1 - i]
  {
    seq(|p|, i requires 0 <= i < |p| => p[|p| - 1 - i])
  }

  /** In a symmetric graph reachability goes both ways. */
  lemma ReachableBack(g: Adjacency, s: string, t: string)
    requires Symmetric(g) && Reachable(g, s, t)
    ensures Reachable(g, t, s)
  {
    var p :| IsWalk(g, p) && p[0] == s && p[|p| - 1] == t;
    var q := Backwards(p);
    forall i | 0 <= i < |q| - 1 ensures q[i] in g && q[i + 1] in g[q[i]] {
      var j := |p| - 2 - i;
      assert q[i] == p[j + 1] && q[i + 1] == p[j];
      assert p[j] in g && p[j + 1] in g[p[j]];
    }
    assert IsWalk(g, q);
  }

  /** Reachability composes. */
  lemma ReachableTrans(g: Adjacency, a: string, b: string, c: string)
    requires Reachable(g, a, b) && Reachable(g, b, c)
    ensures Reachable(g, a, c)
  {
    var p :| IsWalk(g, p) && p[0] == a && p[|p| - 1] == b;
    var q :| IsWalk(g, q) && q[0] == b && q[|q| - 1] == c;
    var w := p + q[1..];
    forall i | 0 <= i < |w| - 1 ensures w[i] in g && w[i + 1] in g[w[i]] {
      if i < |p| - 1 {
        assert w[i] == p[i] && w[i + 1] == p[i + 1];
      } else {
        var j := i - |p| + 1;
        assert w[i] == q[j] && w[i + 1] == q[j + 1];
      }
    }
    assert IsWalk(g, w) && w[|w| - 1] == c;
  }

  /** In a symmetric graph two components that share a name are the same component. */
  lemma ComponentsMeet(g: Adjacency, a: string, b: string, x: string)
    requires Symmetric(g) && Reachable(g, a, x) && Reachable(g, b, x)
    ensures forall y :: Reachable(g, a, y) <==> Reachable(g, b, y)
  {
    ReachableBack(g, b, x);
    ReachableBack(g, a, x);
    forall y ensures Reachable(g, a, y) <==> Reachable(g, b, y) {
      if Reachable(g, a, y) {
        ReachableTrans(g, x, a, y);
        ReachableTrans(g, b, x, y);
      }
      if Reachable(g, b, y) {
        ReachableTrans(g, x, b, y);
        ReachableTrans(g, a, x, y);
      }
    }
  }

  /** Every name reaches itself. */
  lemma ReachableSelf(g: Adjacency, s: string)
    ensures Reachable(g, s, s)
  {
    assert IsWalk(g, [s]);
  }

  /** Components of a symmetric graph whose roots do not reach each other share no name. */
  lemma ComponentsApart(g: Adjacency, a: string, b: string, x: string)
    requires Symmetric(g) && !Reachable(g, a, b)
    ensures !(Reachable(g, a, x) && Reachable(g, b, x))
  {
    if Reachable(g, a, x) && Reachable(g, b, x) {
      ReachableBack(g, b, x);
      ReachableTrans(g, a, x, b);
    }
  }
}
