/** The foreign-key order of the copy loop in `run` (synapse/_scripts/synapse_port_db.py). */
module PortSchedule {
  import opened Graph

  /** What each table to port references. */
  function Needed(tables: set<string>, constraints: map<string, set<string>>): Graph<string> {
    map t <- tables :: if t in constraints then constraints[t] else {}
  }

  /** Everything the table references, directly or not, is to be ported too, and no cycle is among it. */
  ghost predicate Portable(g: Graph<string>, t: string) {
    !ReachesCycle(g, t) && forall w | Reaches(g, t, w) :: w in g
  }

  lemma PathGrows(g: Graph<string>, path: seq<string>, next: string)
    requires IsPath(g, path) && Edge(g, path[|path| - 1], next)
    ensures IsPath(g, path + [next])
  {
    var longer := path + [next];
    forall i | 0 <= i < |longer| - 1
      ensures Edge(g, longer[i], longer[i + 1])
    {
      if i < |path| - 1 {
        assert Edge(g, path[i], path[i + 1]);
      }
    }
  }

  lemma PathPart(g: Graph<string>, path: seq<string>, from: nat, to: nat)
    requires IsPath(g, path) && from < to <= |path|
    ensures PathFromTo(g, path[from..to], path[from], path[to - 1])
  {
    var part := path[from..to];
    forall i | 0 <= i < |part| - 1
      ensures Edge(g, part[i], part[i + 1])
    {
      assert Edge(g, path[from + i], path[from + i + 1]);
    }
  }

  ghost function Unvisited(left: set<string>, path: seq<string>): set<string> {
    set t <- left | t !in path
  }

  /** Walking along references that are not yet ported ends outside or closes a cycle. */
  lemma {:induction false} WalkFails(g: Graph<string>, left: set<string>, path: seq<string>)
    requires left <= g.Keys && IsPath(g, path)
    requires forall i | 0 <= i < |path| :: path[i] in left
    requires forall t <- left :: exists w <- g[t] :: w in left || w !in g
    ensures !Portable(g, path[0])
    decreases Unvisited(left, path)
  {
    var last := path[|path| - 1];
    var w :| w in g[last] && (w in left || w !in g);
    assert Edge(g, last, w);
    var longer := path + [w];
    PathGrows(g, path, w);
    if w !in g {
      assert PathFromTo(g, longer, path[0], w);
    } else if w in path {
      var i :| 0 <= i < |path| && path[i] == w;
      PathPart(g, path, 0, i + 1);
      PathPart(g, longer, i, |longer|);
      assert Reaches(g, path[0], w) && OnCycle(g, w);
    } else {
      assert w in Unvisited(left, path) && w !in Unvisited(left, longer);
      WalkFails(g, left, longer);
    }
  }

  /** The tables of the next round: still to port, and referencing only tables that are ported. */
  function Ready(tables: set<string>, constraints: map<string, set<string>>, ported: set<string>): set<string> {
    set t <- tables - ported | (if t in constraints then constraints[t] else {}) - ported == {}
  }

  /** If no table is ready, none of those left is portable. */
  lemma NothingReady(tables: set<string>, constraints: map<string, set<string>>, ported: set<string>, t: string)
    requires Ready(tables, constraints, ported) == {} && t in tables - ported
    ensures !Portable(Needed(tables, constraints), t)
  {
    var g, left := Needed(tables, constraints), tables - ported;
    forall u <- left
      ensures exists w <- g[u] :: w in left || w !in g
    {
      assert u !in Ready(tables, constraints, ported);
      assert g[u] - ported != {};
      var w :| w in g[u] - ported;
      assert w in left || w !in g;
    }
    WalkFails(g, left, [t]);
  }

  /** The tables can be put into an order in which each follows all it references. */
  ghost predicate Orderly(g: Graph<string>, ported: set<string>) {
    exists order :: DependencyOrder(g, order) && forall t: string :: t in order <==> t in ported
  }

  lemma {:induction false} OrderlyRound(g: Graph<string>, ported: set<string>, ready: set<string>)
    requires Orderly(g, ported) && ready <= g.Keys && ready !! ported
    requires forall t <- ready :: g[t] <= ported
    ensures Orderly(g, ported + ready)
    decreases ready
  {
    if ready == {} {
      assert ported + ready == ported;
    } else {
      var t :| t in ready;
      var order :| DependencyOrder(g, order) && forall u: string :: u in order <==> u in ported;
      OrderGrows(g, order, t);
      assert forall u: string :: u in order + [t] <==> u in ported + {t};
      OrderlyRound(g, ported + {t}, ready - {t});
      assert ported + {t} + (ready - {t}) == ported + ready;
    }
  }

  lemma RoundIsOrderly(tables: set<string>, constraints: map<string, set<string>>, ported: set<string>)
    requires ported <= tables && Orderly(Needed(tables, constraints), ported)
    ensures Orderly(Needed(tables, constraints), ported + Ready(tables, constraints, ported))
  {
    var g, ready := Needed(tables, constraints), Ready(tables, constraints, ported);
    forall t <- ready, w <- g[t]
      ensures w in ported
    {
      assert w !in g[t] - ported;
    }
    OrderlyRound(g, ported, ready);
  }

  lemma OrderlyIsPortable(g: Graph<string>, ported: set<string>)
    requires Orderly(g, ported) && ported <= g.Keys
    ensures forall t <- ported :: Portable(g, t)
  {
    var order :| DependencyOrder(g, order) && forall t: string :: t in order <==> t in ported;
    forall t <- ported
      ensures Portable(g, t)
    {
      OrderedReachNoCycle(g, order, t);
    }
  }

  /** Runs the rounds of the copy loop. `finished` is false where the source would go round forever without
      porting anything. The tables handled are exactly the portable ones, each once, after all it references. */
  method PortInOrder(tables: set<string>, constraints: map<string, set<string>>)
    returns (finished: bool, order: seq<string>)
    ensures DependencyOrder(Needed(tables, constraints), order)
    ensures forall t: string :: t in order <==> t in tables && Portable(Needed(tables, constraints), t)
    ensures finished <==> forall t <- tables :: Portable(Needed(tables, constraints), t)
  {
    ghost var g := Needed(tables, constraints);
    var toPort := tables;
    var ported: set<string> := {};
    order := [];
    while toPort != {}
      invariant toPort <= tables && ported == tables - toPort
      invariant DependencyOrder(g, order)
      invariant forall t: string :: t in order <==> t in ported
      decreases toPort
    {
      var ready := set t <- toPort | (if t in constraints then constraints[t] else {}) - ported == {};
      assert ready == Ready(tables, constraints, ported);
      if ready == {} {
        forall t <- tables
          ensures t in order <==> Portable(g, t)
        {
          if t in order {
            OrderedReachNoCycle(g, order, t);
          } else {
            NothingReady(tables, constraints, ported, t);
          }
        }
        return false, order;
      }
      forall t <- ready, w <- g[t]
        ensures w in ported
      {
        assert w !in g[t] - ported;
      }
      order := HandleTables(ready, order, g, ported);
      toPort := toPort - ready;
      ported := ported + ready;
    }
    forall t <- tables
      ensures Portable(g, t)
    {
      OrderedReachNoCycle(g, order, t);
    }
    return true, order;
  }

  /** One round: every ready table is handled, in any order. */
  method HandleTables(ready: set<string>, before: seq<string>, ghost g: Graph<string>, ghost ported: set<string>)
    returns (order: seq<string>)
    requires ready <= g.Keys && ready !! ported && DependencyOrder(g, before)
    requires forall t: string :: t in before <==> t in ported
    requires forall t <- ready :: g[t] <= ported
    ensures DependencyOrder(g, order)
    ensures forall t: string :: t in order <==> t in ported + ready
  {
    order := before;
    var left := ready;
    while left != {}
      invariant left <= ready && DependencyOrder(g, order)
      invariant forall t: string :: t in order <==> t in ported || t in ready - left
      decreases left
    {
      var t :| t in left;
      OrderGrows(g, order, t);
      order := order + [t];
      left := left - {t};
    }
  }
}
