/** Finite dependency graphs: paths, reachable cycles, and orders in which everything follows what it needs. */
module Graph {

  type Graph<V> = map<V, set<V>>

  ghost predicate Edge<V>(g: Graph<V>, from: V, to: V) {
    from in g && to in g[from]
  }

  ghost predicate IsPath<V>(g: Graph<V>, path: seq<V>) {
    |path| >= 1 && forall i | 0 <= i < |path| - 1 :: Edge(g, path[i], path[i + 1])
  }

  ghost predicate PathFromTo<V>(g: Graph<V>, path: seq<V>, from: V, to: V) {
    IsPath(g, path) && path[0] == from && path[|path| - 1] == to
  }

  ghost predicate Reaches<V(!new)>(g: Graph<V>, from: V, to: V) {
    exists path: seq<V> :: PathFromTo(g, path, from, to)
  }

  ghost predicate OnCycle<V(!new)>(g: Graph<V>, v: V) {
    exists path: seq<V> :: |path| >= 2 && PathFromTo(g, path, v, v)
  }

  ghost predicate ReachesCycle<V(!new)>(g: Graph<V>, from: V) {
    exists v :: Reaches(g, from, v) && OnCycle(g, v)
  }

  lemma ReachesItself<V(!new)>(g: Graph<V>, v: V)
    ensures Reaches(g, v, v)
  {
    assert PathFromTo(g, [v], v, v);
  }

  lemma EdgeThenReach<V(!new)>(g: Graph<V>, from: V, next: V, to: V)
    requires Edge(g, from, next) && Reaches(g, next, to)
    ensures Reaches(g, from, to)
  {
    var path :| PathFromTo(g, path, next, to);
    assert PathFromTo(g, [from] + path, from, to);
  }

  lemma EdgeThenCycle<V(!new)>(g: Graph<V>, from: V, next: V)
    requires Edge(g, from, next) && ReachesCycle(g, next)
    ensures ReachesCycle(g, from)
  {
    var v :| Reaches(g, next, v) && OnCycle(g, v);
    EdgeThenReach(g, from, next, v);
  }

  // ----- Orders -----

  /** Every element comes after everything it points to. */
  ghost predicate DependencyOrder<V>(g: Graph<V>, order: seq<V>) {
    && (forall i, j | 0 <= i < j < |order| :: order[i] != order[j])
    && (forall i | 0 <= i < |order| :: order[i] in g && forall w <- g[order[i]] :: w in order[..i])
  }

  lemma OrderGrows<V>(g: Graph<V>, order: seq<V>, v: V)
    requires DependencyOrder(g, order) && v in g && v !in order && forall w <- g[v] :: w in order
    ensures DependencyOrder(g, order + [v])
  {
    var longer := order + [v];
    forall i | 0 <= i < |longer|
      ensures longer[i] in g && forall w <- g[longer[i]] :: w in longer[..i]
    {
      assert longer[..i] == if i < |order| then order[..i] else order;
    }
  }

  /** Along a path, positions in a dependency order go down. */
  lemma {:induction false} PathsDescend<V>(g: Graph<V>, order: seq<V>, path: seq<V>, at: nat)
    requires DependencyOrder(g, order) && IsPath(g, path)
    requires at < |order| && order[at] == path[0]
    ensures path[|path| - 1] in order[..at + 1]
    ensures |path| >= 2 ==> path[|path| - 1] in order[..at]
    decreases |path|
  {
    if |path| >= 2 {
      assert Edge(g, path[0], path[1]);
      var next :| 0 <= next < at && order[..at][next] == path[1];
      var rest := path[1..];
      forall i | 0 <= i < |rest| - 1
        ensures Edge(g, rest[i], rest[i + 1])
      {
        assert Edge(g, path[i + 1], path[i + 2]);
      }
      PathsDescend(g, order, rest, next);
      assert order[..next + 1] <= order[..at];
    }
  }

  /** Nothing in a dependency order reaches a cycle, and whatever it reaches is in the order. */
  lemma OrderedReachNoCycle<V(!new)>(g: Graph<V>, order: seq<V>, v: V)
    requires DependencyOrder(g, order) && v in order
    ensures !ReachesCycle(g, v)
    ensures forall w | Reaches(g, v, w) :: w in order
  {
    var at :| 0 <= at < |order| && order[at] == v;
    forall w | Reaches(g, v, w)
      ensures w in order && !OnCycle(g, w)
    {
      var path :| PathFromTo(g, path, v, w);
      PathsDescend(g, order, path, at);
      var there :| 0 <= there < |order| && order[there] == w;
      forall cycle: seq<V> | |cycle| >= 2 && PathFromTo(g, cycle, w, w)
        ensures false
      {
        PathsDescend(g, order, cycle, there);
      }
    }
  }
}
