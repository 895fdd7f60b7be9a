/**
  `findCyclePath` of scripts/detect-import-cycles.ts: a depth-first search that
  pushes and pops a path until it closes a cycle at its start.
*/
module CyclePath {
  import opened Wrappers
  import opened ImportGraph

  /** A cycle from `start` back to `start` whose inner files lie in `scc`. */
  ghost predicate CycleWithin(g: Graph, start: File, scc: set<File>, p: seq<File>) {
    && WalkFromTo(g, p, start, start)
    && |p| >= 2
    && forall i :: 1 <= i < |p| - 1 ==> p[i] in scc
  }

  /** No file repeats except the start, at both ends. */
  ghost predicate SimpleCycle(p: seq<File>) {
    |p| >= 2 && forall i, j :: 0 <= i < j < |p| - 1 ==> p[i] != p[j]
  }

  /** A search that visited `visited` has given up on x: no import of x leads further. */
  ghost predicate DeadEnd(g: Graph, start: File, scc: set<File>, visited: set<File>, x: File) {
    forall y :: y in g.Succ(x) ==> y != start && (y in scc ==> y in visited)
  }

  class CycleSearch {
    const graph: Graph
    const start: File
    const scc: set<File>
    var visited: set<File>
    var path: seq<File>

    constructor (start: File, scc: set<File>, graph: Graph)
      ensures this.start == start && this.scc == scc && this.graph == graph
      ensures visited == {} && path == []
    {
      this.start, this.scc, this.graph := start, scc, graph;
      visited, path := {}, [];
    }

    /** The path is a simple walk from `start` through visited files of `scc`. */
    ghost predicate PathInv()
      reads this
    {
      && (path != [] ==> Walk(graph, path) && path[0] == start)
      && (forall i :: 0 <= i < |path| ==> path[i] in visited)
      && (forall i :: 1 <= i < |path| ==> path[i] in scc)
      && (forall i, j :: 0 <= i < j < |path| ==> path[i] != path[j])
    }

    ghost predicate Inv()
      reads this
    {
      PathInv() && forall x :: x in visited && x !in path ==> DeadEnd(graph, start, scc, visited, x)
    }

    method Dfs(node: File) returns (found: bool)
      requires Inv() && node !in visited
      requires if path == [] then node == start else node in scc && node in graph.Succ(path[|path| - 1])
      modifies `visited, `path
      ensures old(visited) + {node} <= visited
      ensures found ==> CycleWithin(graph, start, scc, path) && SimpleCycle(path)
      ensures !found ==> Inv() && path == old(path)
      decreases scc + {start} - visited
    {
      visited := visited + {node};
      path := path + [node];
      ghost var here := path;
      assert path[|path| - 1] == node;

      var imports := graph.Succ(node);
      for i := 0 to |imports|
        invariant Inv() && path == here
        invariant old(visited) + {node} <= visited
        invariant forall j :: 0 <= j < i ==> imports[j] != start && (imports[j] in scc ==> imports[j] in visited)
      {
        var next := imports[i];
        if next == start {
          path := path + [start];
          return true;
        }
        if next in scc && next !in visited {
          found := Dfs(next);
          if found { return true; }
        }
      }

      assert DeadEnd(graph, start, scc, visited, node);
      path := path[..|path| - 1];
      assert path == old(path) && here == path + [node];
      return false;
    }
  }

  /** Every walk from a given-up file inside `scc` stays among given-up files. */
  lemma {:induction false} DeadEndWalk(g: Graph, start: File, scc: set<File>, visited: set<File>, p: seq<File>)
    requires forall x :: x in visited ==> DeadEnd(g, start, scc, visited, x)
    requires Walk(g, p) && p[0] in visited && |p| >= 2
    requires forall i :: 1 <= i < |p| - 1 ==> p[i] in scc
    ensures p[|p| - 1] != start
    decreases |p|
  {
    assert DeadEnd(g, start, scc, visited, p[0]) && p[1] in g.Succ(p[0]);
    if |p| > 2 {
      assert p[1] in scc;
      DeadEndWalk(g, start, scc, visited, p[1..]);
    }
  }

  lemma DeadEndsExcludeCycles(g: Graph, start: File, scc: set<File>, visited: set<File>)
    requires forall x :: x in visited ==> DeadEnd(g, start, scc, visited, x)
    requires start in visited
    ensures !exists p :: CycleWithin(g, start, scc, p)
  {
    if p :| CycleWithin(g, start, scc, p) {
      DeadEndWalk(g, start, scc, visited, p);
    }
  }

  /** A path is found iff there is a cycle to find. */
  method FindCyclePath(start: File, scc: set<File>, graph: Graph) returns (result: Option<seq<File>>)
    ensures result.Some? <==> exists p :: CycleWithin(graph, start, scc, p)
    ensures result.Some? ==> CycleWithin(graph, start, scc, result.value) && SimpleCycle(result.value)
  {
    var search := new CycleSearch(start, scc, graph);
    var found := search.Dfs(start);
    if !found {
      DeadEndsExcludeCycles(graph, start, scc, search.visited);
    }
    result := if found then Some(search.path) else None;
  }
}
