/**
  The import graph that scripts/detect-import-cycles.ts builds, and the
  reachability notions its analyses are about.
*/
module ImportGraph {

  type File = string

  /** `files` lists the keys of the source's `Graph` object in insertion order;
      `imports` holds the edge list stored under each key. */
  datatype Graph = Graph(files: seq<File>, imports: map<File, seq<File>>) {

    ghost predicate Valid() {
      forall f :: f in files <==> f in imports
    }

    /** The source's `graph[f] ?? []`. */
    function Succ(f: File): seq<File> {
      if f in imports then imports[f] else []
    }

    /** Every file the graph mentions, as a key or only as an import target. */
    ghost function Nodes(): set<File> {
      imports.Keys + (set f, t | f in imports && t in imports[f] :: t)
    }
  }

  /** A walk along import edges; a single file is a walk of no edges. */
  ghost predicate Walk(g: Graph, p: seq<File>) {
    |p| > 0 && forall i :: 0 <= i < |p| - 1 ==> p[i + 1] in g.Succ(p[i])
  }

  ghost predicate WalkFromTo(g: Graph, p: seq<File>, x: File, y: File) {
    Walk(g, p) && p[0] == x && p[|p| - 1] == y
  }

  ghost predicate Reaches(g: Graph, x: File, y: File) {
    exists p :: WalkFromTo(g, p, x, y)
  }

  /** A file that some walk of at least one edge leads back to. */
  ghost predicate OnCycle(g: Graph, x: File) {
    exists p :: WalkFromTo(g, p, x, x) && |p| >= 2
  }

  ghost predicate Acyclic(g: Graph) {
    forall x :: !OnCycle(g, x)
  }

  /** No edge leaves `s`. */
  ghost predicate Closed(g: Graph, s: set<File>) {
    forall x, y :: x in s && y in g.Succ(x) ==> y in s
  }

  lemma ReachesSelf(g: Graph, x: File)
    ensures Reaches(g, x, x)
  {
    assert WalkFromTo(g, [x], x, x);
  }

  lemma ReachesEdge(g: Graph, x: File, y: File)
    requires y in g.Succ(x)
    ensures Reaches(g, x, y)
  {
    assert WalkFromTo(g, [x, y], x, y);
  }

  lemma WalkConcat(g: Graph, p: seq<File>, q: seq<File>, x: File, y: File, z: File)
    requires WalkFromTo(g, p, x, y) && WalkFromTo(g, q, y, z)
    ensures WalkFromTo(g, p + q[1..], x, z)
  {
    var r := p + q[1..];
    forall i | 0 <= i < |r| - 1
      ensures r[i + 1] in g.Succ(r[i])
    {
      if i >= |p| - 1 {
        assert r[i] == q[i - |p| + 1] && r[i + 1] == q[i - |p| + 2];
      }
    }
  }

  lemma ReachesTrans(g: Graph, x: File, y: File, z: File)
    requires Reaches(g, x, y) && Reaches(g, y, z)
    ensures Reaches(g, x, z)
  {
    var p :| WalkFromTo(g, p, x, y);
    var q :| WalkFromTo(g, q, y, z);
    WalkConcat(g, p, q, x, y, z);
  }

  /** A walk that starts in a closed set never leaves it. */
  lemma {:induction false} ClosedWalk(g: Graph, s: set<File>, p: seq<File>)
    requires Closed(g, s) && Walk(g, p) && p[0] in s
    ensures p[|p| - 1] in s
    decreases |p|
  {
    if |p| > 1 {
      assert p[1] in s;
      ClosedWalk(g, s, p[1..]);
    }
  }

  lemma ClosedReach(g: Graph, s: set<File>, x: File, y: File)
    requires Closed(g, s) && x in s && Reaches(g, x, y)
    ensures y in s
  {
    var p :| WalkFromTo(g, p, x, y);
    ClosedWalk(g, s, p);
  }

  /** The nodes are exactly what can be reached from the keys. */
  lemma NodesAreReachable(g: Graph)
    requires g.Valid()
    ensures forall x :: x in g.Nodes() <==> exists f :: f in g.files && Reaches(g, f, x)
  {
    forall f, x | f in g.files && Reaches(g, f, x)
      ensures x in g.Nodes()
    {
      ClosedReach(g, g.Nodes(), f, x);
    }
    forall x | x in g.Nodes()
      ensures exists f :: f in g.files && Reaches(g, f, x)
    {
      if x in g.imports {
        ReachesSelf(g, x);
      } else {
        var f :| f in g.imports && x in g.imports[f];
        ReachesEdge(g, f, x);
      }
    }
  }
}
