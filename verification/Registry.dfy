/** The dependency check of the capability definitions: a depth-first search that marks the
    nodes on its way and the nodes it has finished. */
module Registry {
  import opened Graphs

  /** A platform capability, by its number. */
  datatype Platform = Platform(number: int)

  type Dependencies = map<Platform, seq<Platform>>

  /** A key without a definition has no dependencies. */
  function Next(g: Dependencies): Platform -> seq<Platform> {
    (k: Platform) => if k in g then g[k] else []
  }

  /** Every key defined or named. */
  function Nodes(g: Dependencies): set<Platform> {
    g.Keys + (set k, d | k in g && d in g[k] :: d)
  }

  class Search {
    var visiting: set<Platform>
    var visited: set<Platform>
    /** The finished nodes in the order they were finished. */
    ghost var order: seq<Platform>

    constructor ()
      ensures visiting == {} && visited == {} && order == []
    {
      visiting, visited := {}, {};
      order := [];
    }

    ghost predicate Valid(g: Dependencies, way: seq<Platform>)
      reads this
    {
      && (forall k :: k in visiting <==> k in way)
      && (forall k :: k in visited <==> k in order)
      && SuccessorsFirst(Next(g), order)
      && visiting !! visited
      && visiting <= Nodes(g)
    }

    /** Finishes the key and everything it needs, or finds a cycle. `way` is the walk on which
        the search has come here. */
    method Visit(g: Dependencies, key: Platform, ghost way: seq<Platform>) returns (cycle: bool)
      requires Valid(g, way) && key in Nodes(g) && Walk(Next(g), way + [key])
      modifies this
      ensures cycle ==> Cyclic(Next(g))
      ensures !cycle ==> Valid(g, way) && key in visited && old(visited) <= visited && visiting == old(visiting)
      decreases Nodes(g) - visiting
    {
      if key in visiting {
        ClosesCycle(Next(g), way, key);
        return true;
      }
      if key in visited {
        return false;
      }
      visiting := visiting + {key};
      var dependencies := Next(g)(key);
      for i := 0 to |dependencies|
        invariant Valid(g, way + [key]) && visiting == old(visiting) + {key} && old(visited) <= visited
        invariant forall d | d in dependencies[..i] :: d in visited
      {
        var d := dependencies[i];
        WalkTo(Next(g), way + [key], d);
        cycle := Visit(g, d, way + [key]);
        if cycle {
          return;
        }
      }
      visiting := visiting - {key};
      visited := visited + {key};
      FinishedOrder(Next(g), order, key);
      order := order + [key];
      return false;
    }
  }

  lemma ClosesCycle(next: Platform -> seq<Platform>, way: seq<Platform>, key: Platform)
    requires Walk(next, way + [key]) && key in way
    ensures Cyclic(next)
  {
    var k :| 0 <= k < |way| && way[k] == key;
    WalkDrop(next, way + [key], k);
    var loop := (way + [key])[k..];
    assert loop[0] == key && loop[|loop| - 1] == key;
  }

  lemma FinishedOrder(next: Platform -> seq<Platform>, order: seq<Platform>, key: Platform)
    requires SuccessorsFirst(next, order) && forall d | d in next(key) :: d in order
    ensures SuccessorsFirst(next, order + [key])
  {
    var more := order + [key];
    forall i, d | 0 <= i < |more| && d in next(more[i]) ensures d in more[..i] {
      if i < |order| {
        assert more[..i] == order[..i];
      } else {
        assert more[..i] == order;
      }
    }
  }

  lemma AllFinished(g: Dependencies, order: seq<Platform>)
    requires SuccessorsFirst(Next(g), order) && forall k | k in g :: k in order
    ensures !Cyclic(Next(g))
  {
    forall p | Walk(Next(g), p) && |p| > 1 ensures p[0] != p[|p| - 1] {
      assert p[1] in Next(g)(p[0]);
      var i :| 0 <= i < |order| && order[i] == p[0];
      OrderedNodesAreAcyclic(Next(g), order, p, i);
    }
  }

  /** An error exactly when the definitions have a dependency cycle, in whatever order the
      keys are visited. */
  method CheckCycles(g: Dependencies) returns (cycle: bool)
    ensures cycle <==> Cyclic(Next(g))
  {
    var search := new Search();
    var todo := g.Keys;
    while todo != {}
      invariant todo <= g.Keys && search.Valid(g, [])
      invariant fresh(search)
      invariant forall k | k in g && k !in todo :: k in search.visited
    {
      var key :| key in todo;
      assert [] + [key] == [key];
      cycle := search.Visit(g, key, []);
      if cycle {
        return;
      }
      todo := todo - {key};
    }
    AllFinished(g, search.order);
    return false;
  }
}
