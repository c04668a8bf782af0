/** Reachability with cycle refusal over active reward targets (`cacheon/economics.py`, `_active_reward_targets`). */
module RewardGraph {
  import opened Orders

  /** Children of each target, in whatever order Python lists the set. */
  type Graph = map<string, seq<string>>

  /** `ids`: the listed children are distinct and registered. */
  predicate WellFormedAt(g: Graph, n: string) {
    n in g && (forall c :: c in g[n] ==> c in g) && |Elements(g[n])| == |g[n]|
  }

  ghost predicate Path(g: Graph, p: seq<string>) {
    && p != []
    && (forall i :: 0 <= i < |p| ==> p[i] in g)
    && (forall i :: 0 <= i < |p| - 1 ==> p[i + 1] in g[p[i]])
  }

  /** `p` leads from `a` to `b` along one or more edges. */
  ghost predicate Leads(g: Graph, a: string, b: string, p: seq<string>) {
    Path(g, p) && |p| >= 2 && p[0] == a && p[|p| - 1] == b
  }

  ghost predicate Reaches(g: Graph, a: string, b: string) {
    exists p :: Leads(g, a, b, p)
  }

  /** `c` is `a` or can be reached from it, and lies on a cycle or lists malformed children. */
  ghost predicate BadAt(g: Graph, a: string, c: string) {
    (a == c || Reaches(g, a, c)) && (Reaches(g, c, c) || !WellFormedAt(g, c))
  }

  ghost predicate Refusable(g: Graph, a: string) {
    exists c :: BadAt(g, a, c)
  }

  lemma EdgeReaches(g: Graph, a: string, b: string)
    requires a in g && b in g[a] && b in g
    ensures Reaches(g, a, b)
  {
    assert Leads(g, a, b, [a, b]);
  }

  lemma ReachesTransitive(g: Graph, a: string, b: string, c: string)
    requires Reaches(g, a, b) && Reaches(g, b, c)
    ensures Reaches(g, a, c)
  {
    var p :| Leads(g, a, b, p);
    var q :| Leads(g, b, c, q);
    assert Leads(g, a, c, p + q[1..]);
  }

  /** Along a path every later node is reached from every earlier one. */
  lemma PathReaches(g: Graph, p: seq<string>, i: nat, j: nat)
    requires Path(g, p) && i < j < |p|
    ensures Reaches(g, p[i], p[j])
  {
    var q := p[i..j + 1];
    forall k | 0 <= k < |q| - 1 ensures q[k + 1] in g[q[k]] {
      assert q[k] == p[i + k] && q[k + 1] == p[i + k + 1];
    }
    assert Leads(g, p[i], p[j], q);
  }

  /** Every child of a listed node is listed before it. */
  ghost predicate Topological(g: Graph, order: seq<string>) {
    forall i :: 0 <= i < |order| ==> WellFormedAt(g, order[i]) && forall c :: c in g[order[i]] ==> c in order[..i]
  }

  /** In a topological listing whatever a node reaches comes earlier. */
  lemma {:induction false} ReachedEarlier(g: Graph, order: seq<string>, i: nat, b: string, p: seq<string>)
    requires Topological(g, order) && i < |order| && Leads(g, order[i], b, p)
    ensures b in order[..i]
    decreases |p|
  {
    assert p[1] in g[order[i]];
    var j :| 0 <= j < i && order[j] == p[1];
    if |p| > 2 {
      var q := p[1..];
      forall k | 0 <= k < |q| - 1 ensures q[k + 1] in g[q[k]] { assert q[k] == p[k + 1]; }
      ReachedEarlier(g, order, j, b, q);
    }
  }

  lemma TopologicalClean(g: Graph, order: seq<string>, a: string)
    requires Topological(g, order) && Distinct(order) && a in order
    ensures !Refusable(g, a)
    ensures forall b :: Reaches(g, a, b) ==> b in order && b != a
  {
    var i :| 0 <= i < |order| && order[i] == a;
    forall b | Reaches(g, a, b) ensures b in order[..i] {
      var p :| Leads(g, a, b, p);
      ReachedEarlier(g, order, i, b, p);
    }
    forall c ensures !BadAt(g, a, c) {
      if BadAt(g, a, c) {
        assert c in order;
        var j :| 0 <= j < |order| && order[j] == c;
        assert WellFormedAt(g, order[j]);
        var p :| Leads(g, c, c, p);
        ReachedEarlier(g, order, j, c, p);
      }
    }
  }

  /** The path explored so far, about to be extended by a node of the graph. */
  ghost predicate Extends(g: Graph, stack: seq<string>, node: string) {
    node in g && (stack == [] || (Path(g, stack) && node in g[stack[|stack| - 1]]))
  }

  lemma MalformedIsRefusable(g: Graph, stack: seq<string>, node: string)
    requires Extends(g, stack, node) && !WellFormedAt(g, node)
    ensures Refusable(g, (stack + [node])[0])
  {
    var p := stack + [node];
    if stack != [] {
      assert Path(g, p);
      PathReaches(g, p, 0, |stack|);
    }
    assert BadAt(g, p[0], node);
  }

  lemma CycleIsRefusable(g: Graph, stack: seq<string>, node: string)
    requires Extends(g, stack, node) && node in stack
    ensures Refusable(g, stack[0])
  {
    var i :| 0 <= i < |stack| && stack[i] == node;
    var p := stack + [node];
    assert Path(g, p);
    PathReaches(g, p, i, |stack|);
    if i > 0 { PathReaches(g, p, 0, i); }
    assert BadAt(g, stack[0], node);
  }

  /** One `closure` call: its two sets, the path being explored and the nodes already finished. */
  class Search {
    const graph: Graph
    var found: set<string>
    var visiting: set<string>
    ghost var stack: seq<string>
    ghost var order: seq<string>

    constructor (graph: Graph)
      ensures Valid() && this.graph == graph && found == {} && stack == [] && order == []
    {
      this.graph := graph;
      found, visiting, stack, order := {}, {}, [], [];
    }

    ghost predicate Valid()
      reads this
    {
      && Elements(stack) == visiting
      && (stack == [] || Path(graph, stack))
      && Distinct(order) && Topological(graph, order)
      && visiting !! Elements(order)
    }

    /** The next node may be entered: it is a child of the last node on the path. */
    ghost predicate Entering(node: string)
      reads this
    {
      Valid() && Elements(order) == found && node in graph && (stack == [] || node in graph[stack[|stack| - 1]])
    }

    method Visit(node: string) returns (ok: bool)
      requires Entering(node)
      modifies this
      ensures ok ==> Valid() && visiting == old(visiting) && stack == old(stack)
      ensures ok ==> old(order) <= order && Elements(order) == found + {node} && old(found) <= found
      ensures ok ==> forall n :: n in found - old(found) ==> Reaches(graph, node, n)
      ensures !ok ==> Refusable(graph, (old(stack) + [node])[0])
      decreases graph.Keys - visiting, 1
    {
      if node in visiting {
        CycleIsRefusable(graph, stack, node);
        return false;
      }
      if node in found {
        return true;
      }
      if !WellFormedAt(graph, node) {
        MalformedIsRefusable(graph, stack, node);
        return false;
      }
      ok := VisitChildren(node);
      if ok {
        FinishKeepsOrder(graph, order, node);
        visiting, stack, order := visiting - {node}, old(stack), order + [node];
      }
    }

    /** The recursive part of `visit`: the node is on the path while its children are visited. */
    method VisitChildren(node: string) returns (ok: bool)
      requires Entering(node) && node !in visiting && node !in found && WellFormedAt(graph, node)
      modifies this
      ensures ok ==> Valid() && visiting == old(visiting) + {node} && stack == old(stack) + [node]
      ensures ok ==> old(order) <= order && Elements(order) == found && old(found) <= found
      ensures ok ==> forall c :: c in graph[node] ==> c in order
      ensures ok ==> forall n :: n in found - old(found) ==> Reaches(graph, node, n)
      ensures !ok ==> Refusable(graph, (old(stack) + [node])[0])
      decreases graph.Keys - visiting, 0
    {
      PathPush(graph, stack, node);
      visiting, stack := visiting + {node}, stack + [node];
      var children := graph[node];
      ok := true;
      for i := 0 to |children|
        invariant ok && Valid() && Elements(order) == found
        invariant visiting == old(visiting) + {node} && stack == old(stack) + [node]
        invariant old(order) <= order && old(found) <= found
        invariant Finished(children, i, found)
        invariant forall n :: n in found - old(found) ==> Reaches(graph, node, n)
      {
        ghost var before := found;
        ok := VisitChild(node, children[i], old(found));
        if !ok {
          FirstSame(old(stack), node, children[i]);
          return;
        }
        FinishedNext(children, i, before, found);
      }
      FinishedAll(children, found, order);
    }

    /** One child of the node on top of the path. */
    method VisitChild(node: string, child: string, ghost first: set<string>) returns (ok: bool)
      requires Valid() && Elements(order) == found && node in visiting && WellFormedAt(graph, node) &&
        child in graph[node]
      requires stack != [] && stack[|stack| - 1] == node && first <= found
      requires forall n :: n in found - first ==> Reaches(graph, node, n)
      modifies this
      ensures ok ==> Valid() && visiting == old(visiting) && stack == old(stack)
      ensures ok ==> old(order) <= order && Elements(order) == found && old(found) <= found && child in found
      ensures ok ==> forall n :: n in found - first ==> Reaches(graph, node, n)
      ensures !ok ==> Refusable(graph, (old(stack) + [child])[0])
      decreases graph.Keys - visiting, 2
    {
      ghost var before := found;
      ok := Visit(child);
      if ok {
        FoundReached(graph, node, child, first, before, found);
        found := found + {child};
      }
    }
  }

  /** The first `n` children are finished. */
  ghost predicate Finished(children: seq<string>, n: nat, found: set<string>)
    requires n <= |children|
  {
    forall j :: 0 <= j < n ==> children[j] in found
  }

  lemma FinishedNext(children: seq<string>, n: nat, before: set<string>, now: set<string>)
    requires n < |children| && Finished(children, n, before) && before <= now && children[n] in now
    ensures Finished(children, n + 1, now)
  {
  }

  lemma FinishedAll(children: seq<string>, found: set<string>, order: seq<string>)
    requires Finished(children, |children|, found) && Elements(order) == found
    ensures forall c :: c in children ==> c in order
  {
    forall c | c in children ensures c in order {
      var j :| 0 <= j < |children| && children[j] == c;
      assert c in Elements(order);
    }
  }

  lemma PathPush(g: Graph, stack: seq<string>, node: string)
    requires Extends(g, stack, node)
    ensures Path(g, stack + [node])
  {
  }

  lemma FirstSame<T>(s: seq<T>, x: T, y: T)
    ensures (s + [x] + [y])[0] == (s + [x])[0]
  {
  }

  /** What a visited child adds is reachable from its parent. */
  lemma FoundReached(g: Graph, node: string, child: string, first: set<string>, before: set<string>, now: set<string>)
    requires WellFormedAt(g, node) && child in g[node]
    requires forall n :: n in before - first ==> Reaches(g, node, n)
    requires forall n :: n in now - before ==> Reaches(g, child, n)
    ensures forall n :: n in now + {child} - first ==> Reaches(g, node, n)
  {
    EdgeReaches(g, node, child);
    forall n | n in now + {child} - first ensures Reaches(g, node, n) {
      if n in now - before { ReachesTransitive(g, node, child, n); }
    }
  }

  lemma FinishKeepsOrder(g: Graph, order: seq<string>, node: string)
    requires Distinct(order) && Topological(g, order) && WellFormedAt(g, node) && node !in order
    requires forall c :: c in g[node] ==> c in order
    ensures Distinct(order + [node]) && Topological(g, order + [node])
  {
    var wider := order + [node];
    forall i | 0 <= i < |wider| ensures WellFormedAt(g, wider[i]) && forall c :: c in g[wider[i]] ==> c in wider[..i] {
      assert wider[..i] == order[..i];
    }
  }

  /** `closure` refuses exactly when a cycle or a malformed row is reachable; otherwise it returns exactly what is
      reachable. */
  method Closure(g: Graph, target: string) returns (ok: bool, found: set<string>)
    requires target in g
    ensures ok <==> !Refusable(g, target)
    ensures ok ==> forall n :: n in found <==> Reaches(g, target, n)
  {
    var search := new Search(g);
    ok := search.Visit(target);
    found := search.found;
    if ok {
      TopologicalClean(g, search.order, target);
      assert found <= Elements(search.order);
      forall n | Reaches(g, target, n) ensures n in found {
        assert n in Elements(search.order) && n != target;
      }
    }
  }
}
