/** The lazy component builder (`cache_in_self` in synapse/server.py): a memoising depth-first search with cycle
    detection. A builder is the ordered list of components it asks for. */
module Components {
  import opened Graph

  datatype Act<D> = Started(component: D) | Finished(component: D)

  /** No builder runs again once it has finished. */
  ghost predicate NeverRerun<D(!new)>(log: seq<Act<D>>) {
    forall i, j | 0 <= i < j < |log| && log[i].Finished? :: log[j].component != log[i].component
  }

  /** What each component asks for, order forgotten. */
  ghost function Needs<D>(builders: map<D, seq<D>>): Graph<D> {
    map d <- builders :: set needed <- builders[d]
  }

  class HomeServer<D(==, !new)> {
    const builders: map<D, seq<D>>
    /** Components already built and stored. */
    var built: set<D>
    /** Components whose `building` flag is up. */
    var building: set<D>
    /** Components in the order they were finished, and everything the builders did. */
    ghost var order: seq<D>
    ghost var log: seq<Act<D>>

    ghost predicate Valid()
      reads this
    {
      && (forall d <- builders, needed <- builders[d] :: needed in builders)
      && built <= builders.Keys && building <= builders.Keys && built !! building
      && DependencyOrder(Needs(builders), order)
      && (forall d: D :: d in order <==> d in built)
      && NeverRerun(log)
      && (forall d: D :: Finished(d) in log <==> d in built)
      && (forall d: D :: Finished(d) in log || d in building ==> Started(d) in log)
    }

    constructor (builders: map<D, seq<D>>)
      requires forall d <- builders, needed <- builders[d] :: needed in builders
      ensures Valid() && this.builders == builders && built == {} && building == {} && log == []
    {
      this.builders := builders;
      built, building, order, log := {}, {}, [], [];
    }

    /** `stack` lists the components being built, outermost first. */
    ghost predicate Stack(stack: seq<D>, d: D)
      reads this
    {
      (forall x: D :: x in stack <==> x in building) && IsPath(Needs(builders), stack + [d])
    }

    /** Asking for a component while it is being built is a cycle. */
    lemma FoundCycle(stack: seq<D>, d: D)
      requires Stack(stack, d) && d in building
      ensures ReachesCycle(Needs(builders), d)
    {
      var g, i :| g == Needs(builders) && 0 <= i < |stack| && stack[i] == d;
      var path := stack + [d];
      var cycle := path[i..];
      forall k | 0 <= k < |cycle| - 1
        ensures Edge(g, cycle[k], cycle[k + 1])
      {
        assert Edge(g, path[i + k], path[i + k + 1]);
      }
      assert PathFromTo(g, cycle, d, d);
      ReachesItself(g, d);
    }

    lemma StackGrows(stack: seq<D>, d: D, needed: D)
      requires IsPath(Needs(builders), stack + [d]) && Edge(Needs(builders), d, needed)
      ensures IsPath(Needs(builders), stack + [d] + [needed])
    {
      var g, path := Needs(builders), stack + [d] + [needed];
      forall i | 0 <= i < |path| - 1
        ensures Edge(g, path[i], path[i + 1])
      {
        if i < |stack| {
          assert Edge(g, (stack + [d])[i], (stack + [d])[i + 1]);
        }
      }
    }

    /** Raises the flag of a component; its builder starts. */
    method Begin(d: D)
      requires Valid() && d in builders && d !in built && d !in building
      modifies this
      ensures Valid() && building == old(building) + {d} && built == old(built) && log == old(log) + [Started(d)]
    {
      building := building + {d};
      log := log + [Started(d)];
    }

    /** Stores a component whose builder has everything it asked for. */
    method Store(d: D)
      requires Valid() && d in building && forall needed <- builders[d] :: needed in built
      modifies this
      ensures Valid() && building == old(building) - {d} && built == old(built) + {d}
      ensures log == old(log) + [Finished(d)]
    {
      OrderGrows(Needs(builders), order, d);
      building := building - {d};
      built := built + {d};
      order := order + [d];
      log := log + [Finished(d)];
    }

    /** Asks, in order, for what the builder of `d` needs, up to the first failure. */
    method AskForNeeds(d: D, ghost stack: seq<D>) returns (ok: bool)
      requires Valid() && d in building && IsPath(Needs(builders), stack + [d])
      requires forall x: D :: x in stack + [d] <==> x in building
      modifies this
      decreases builders.Keys - building, 1
      ensures Valid() && building == old(building)
      ensures old(built) <= built && old(log) <= log
      ensures ok ==> forall needed <- builders[d] :: needed in built
      ensures !ok ==> ReachesCycle(Needs(builders), d)
      ensures forall x: D | x in built - old(built) :: Reaches(Needs(builders), d, x)
    {
      ghost var g := Needs(builders);
      ok := true;
      for i := 0 to |builders[d]|
        invariant Valid() && building == old(building)
        invariant old(built) <= built && old(log) <= log
        invariant ok && forall k | 0 <= k < i :: builders[d][k] in built
        invariant forall x: D | x in built - old(built) :: Reaches(g, d, x)
      {
        var needed := builders[d][i];
        assert Edge(g, d, needed);
        StackGrows(stack, d, needed);
        label before:
        ok := Get(needed, stack + [d]);
        forall x: D | x in built - old@before(built)
          ensures Reaches(g, d, x)
        {
          EdgeThenReach(g, d, needed, x);
        }
        if !ok {
          EdgeThenCycle(g, d, needed);
          return;
        }
      }
    }

    /** Asks for a component: true if it is (now) built, false if a cyclic dependency was reported. */
    method Get(d: D, ghost stack: seq<D>) returns (ok: bool)
      requires Valid() && d in builders && Stack(stack, d)
      modifies this
      decreases builders.Keys - building, 0
      ensures Valid() && building == old(building)
      ensures old(built) <= built && old(log) <= log
      ensures ok <==> d in built
      ensures ok <==> !ReachesCycle(Needs(builders), d)
      ensures forall x: D | x in built - old(built) :: Reaches(Needs(builders), d, x)
    {
      ghost var g := Needs(builders);
      if d in built {
        OrderedReachNoCycle(g, order, d);
        return true;
      }
      if d in building {
        FoundCycle(stack, d);
        return false;
      }
      Begin(d);
      ok := AskForNeeds(d, stack);
      if ok {
        Store(d);
        ReachesItself(g, d);
        OrderedReachNoCycle(g, order, d);
      } else {
        building := building - {d};
      }
    }

    /** From a clean start a request succeeds exactly when no cycle is reachable, lowers every flag again, and on
        success has built what it reaches and nothing else beyond what was already there. */
    method GetComponent(d: D) returns (ok: bool)
      requires Valid() && d in builders && building == {}
      modifies this
      ensures Valid() && building == {} && old(log) <= log
      ensures ok <==> !ReachesCycle(Needs(builders), d)
      ensures ok ==> forall x: D :: x in built <==> x in old(built) || Reaches(Needs(builders), d, x)
      ensures !ok ==> d !in built && old(built) <= built
    {
      ok := Get(d, []);
      if ok {
        OrderedReachNoCycle(Needs(builders), order, d);
      }
    }
  }
}
