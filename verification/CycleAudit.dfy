/**
  The verdict of `run` in scripts/detect-import-cycles.ts, composed of
  `findSccs`, the self-loop filter and `findCyclePath`.
*/
module CycleAudit {
  import opened Wrappers
  import opened ImportGraph
  import opened CyclePath
  import opened Tarjan

  /** One printed line; `Mutual` is the fallback for a component without a path. */
  datatype Report = SelfImport(file: File) | Cycle(path: seq<File>) | Mutual(files: seq<File>)

  function FileSet(files: seq<File>): set<File> {
    set f | f in files
  }

  /** The graph has a cycle through some file of the component. */
  ghost predicate HasCycle(g: Graph, scc: seq<File>) {
    exists x :: x in scc && OnCycle(g, x)
  }

  lemma SameClass(g: Graph, sccs: seq<seq<File>>, k: nat, x: File, y: File)
    requires ClassesInReverseOrder(g, sccs) && k < |sccs| && x in sccs[k]
    requires Reaches(g, x, y) && Reaches(g, y, x) && y in g.Nodes()
    ensures y in sccs[k]
  {
    hide Reaches, Graph.Nodes;
    var l :| 0 <= l < |sccs| && y in sccs[l];
  }

  lemma OnWalkIsNode(g: Graph, p: seq<File>, i: nat)
    requires Walk(g, p) && i < |p| - 1
    ensures p[i + 1] in g.Nodes()
  {
    assert p[i + 1] in g.Succ(p[i]);
    assert p[i] in g.imports && p[i + 1] in g.imports[p[i]];
  }

  /** Every file of a cycle lies in the component of the file it starts from. */
  lemma CycleStaysInClass(g: Graph, sccs: seq<seq<File>>, k: nat, x: File, p: seq<File>)
    requires ClassesInReverseOrder(g, sccs) && k < |sccs| && x in sccs[k]
    requires WalkFromTo(g, p, x, x) && |p| >= 2
    ensures CycleWithin(g, x, FileSet(sccs[k]), p)
  {
    forall i | 1 <= i < |p| - 1
      ensures p[i] in sccs[k]
    {
      assert WalkFromTo(g, p[..i + 1], x, p[i]);
      assert WalkFromTo(g, p[i..], p[i], x);
      OnWalkIsNode(g, p, i - 1);
      SameClass(g, sccs, k, x, p[i]);
    }
  }

  /** In a component of several files each file lies on a cycle. */
  lemma LargeClassHasCycle(g: Graph, sccs: seq<seq<File>>, k: nat, x: File)
    requires ClassesInReverseOrder(g, sccs) && k < |sccs| && |sccs[k]| > 1 && x in sccs[k]
    ensures OnCycle(g, x)
  {
    var i :| 0 <= i < |sccs[k]| && sccs[k][i] == x;
    var y := sccs[k][if i == 0 then 1 else 0];
    assert y != x && Reaches(g, x, y) && Reaches(g, y, x);
    var p :| WalkFromTo(g, p, x, y);
    var q :| WalkFromTo(g, q, y, x);
    WalkConcat(g, p, q, x, y, x);
    assert |p + q[1..]| >= 2;
  }

  /** In a component of one file only a self-import can be a cycle. */
  lemma SingletonCycle(g: Graph, sccs: seq<seq<File>>, k: nat, x: File)
    requires ClassesInReverseOrder(g, sccs) && k < |sccs| && sccs[k] == [x] && OnCycle(g, x)
    ensures x in g.Succ(x)
  {
    var p :| WalkFromTo(g, p, x, x) && |p| >= 2;
    CycleStaysInClass(g, sccs, k, x, p);
    assert p[1] in g.Succ(p[0]);
    if |p| > 2 {
      assert p[1] in FileSet(sccs[k]);
    }
  }

  lemma SelfImportIsCycle(g: Graph, x: File)
    requires x in g.Succ(x)
    ensures OnCycle(g, x)
  {
    assert WalkFromTo(g, [x, x], x, x) && |[x, x]| >= 2;
  }

  /** `scc.length > 1 || selfLoops.includes(scc[0])` decides whether a component has a cycle. */
  lemma CyclicTest(g: Graph, sccs: seq<seq<File>>, k: nat)
    requires ClassesInReverseOrder(g, sccs) && k < |sccs|
    ensures |sccs[k]| > 1 || sccs[k][0] in g.Succ(sccs[k][0]) <==> HasCycle(g, sccs[k])
    ensures |sccs[k]| > 1 ==> OnCycle(g, sccs[k][0])
  {
    var scc := sccs[k];
    if |scc| > 1 {
      LargeClassHasCycle(g, sccs, k, scc[0]);
    } else {
      assert scc == [scc[0]];
      if scc[0] in g.Succ(scc[0]) {
        SelfImportIsCycle(g, scc[0]);
      }
      if OnCycle(g, scc[0]) {
        SingletonCycle(g, sccs, k, scc[0]);
      }
    }
  }

  /** A report that shows a real cycle of the component it stands for. */
  ghost predicate Shows(g: Graph, scc: seq<File>, r: Report) {
    match r
    case SelfImport(f) => scc == [f] && f in g.Succ(f)
    case Cycle(p) => |scc| > 1 && CycleWithin(g, scc[0], FileSet(scc), p) && SimpleCycle(p)
    case Mutual(_) => false
  }

  /** The self-loop filter over the graph's keys. */
  method SelfLoops(graph: Graph) returns (loops: seq<File>)
    requires graph.Valid()
    ensures forall f :: f in loops <==> f in graph.Succ(f)
  {
    loops := [];
    for i := 0 to |graph.files|
      invariant forall f :: f in loops <==> f in graph.files[..i] && f in graph.Succ(f)
    {
      if graph.files[i] in graph.Succ(graph.files[i]) {
        loops := loops + [graph.files[i]];
      }
    }
    assert graph.files[..|graph.files|] == graph.files;
  }

  /** The components are the cyclic ones, each once, in the order they were finished. */
  ghost predicate CyclicOnes(g: Graph, sccs: seq<seq<File>>, cyclic: seq<seq<File>>, source: seq<nat>) {
    && |source| == |cyclic|
    && (forall c :: 0 <= c < |cyclic| ==> source[c] < |sccs| && cyclic[c] == sccs[source[c]])
    && (forall c, d :: 0 <= c < d < |cyclic| ==> source[c] < source[d])
    && (forall k :: 0 <= k < |sccs| ==> (k in source <==> HasCycle(g, sccs[k])))
  }

  method Filter(graph: Graph, sccs: seq<seq<File>>, loops: seq<File>)
    returns (cyclic: seq<seq<File>>, ghost source: seq<nat>)
    requires ClassesInReverseOrder(graph, sccs)
    requires forall f :: f in loops <==> f in graph.Succ(f)
    ensures CyclicOnes(graph, sccs, cyclic, source)
  {
    hide HasCycle;
    cyclic, source := [], [];
    for k := 0 to |sccs|
      invariant |source| == |cyclic|
      invariant forall c :: 0 <= c < |cyclic| ==> source[c] < k && cyclic[c] == sccs[source[c]]
      invariant forall c, d :: 0 <= c < d < |cyclic| ==> source[c] < source[d]
      invariant forall j :: 0 <= j < k ==> (j in source <==> HasCycle(graph, sccs[j]))
    {
      CyclicTest(graph, sccs, k);
      if |sccs[k]| > 1 || sccs[k][0] in loops {
        cyclic, source := cyclic + [sccs[k]], source + [k];
      }
    }
  }

  lemma CyclicFile(g: Graph, sccs: seq<seq<File>>, cyclic: seq<seq<File>>, source: seq<nat>, x: File)
    requires ClassesInReverseOrder(g, sccs) && CyclicOnes(g, sccs, cyclic, source)
    ensures OnCycle(g, x) <==> exists c :: 0 <= c < |cyclic| && x in cyclic[c]
  {
    hide Reaches, Walk, Graph.Nodes;
    if OnCycle(g, x) {
      var p :| WalkFromTo(g, p, x, x) && |p| >= 2;
      OnWalkIsNode(g, p, |p| - 2);
      assert x in g.Nodes();
      var k :| 0 <= k < |sccs| && x in sccs[k];
      assert HasCycle(g, sccs[k]);
      var c :| 0 <= c < |source| && source[c] == k;
      assert x in cyclic[c];
    }
    if c :| 0 <= c < |cyclic| && x in cyclic[c] {
      var k := source[c];
      assert k in source;
      if |sccs[k]| > 1 {
        LargeClassHasCycle(g, sccs, k, x);
      } else {
        assert sccs[k] == [x];
      }
    }
  }

  /** The cyclic components hold exactly the files on cycles. */
  lemma CyclicFiles(g: Graph, sccs: seq<seq<File>>, cyclic: seq<seq<File>>, source: seq<nat>)
    requires ClassesInReverseOrder(g, sccs) && CyclicOnes(g, sccs, cyclic, source)
    ensures forall x :: OnCycle(g, x) <==> exists c :: 0 <= c < |cyclic| && x in cyclic[c]
    ensures cyclic == [] <==> Acyclic(g)
  {
    forall x
      ensures OnCycle(g, x) <==> exists c :: 0 <= c < |cyclic| && x in cyclic[c]
    {
      CyclicFile(g, sccs, cyclic, source, x);
    }
    hide OnCycle;
    if |cyclic| > 0 {
      assert cyclic[0] == sccs[source[0]];
      assert cyclic[0][0] in cyclic[0];
      assert OnCycle(g, cyclic[0][0]);
    }
  }

  lemma CyclicClasses(g: Graph, sccs: seq<seq<File>>, cyclic: seq<seq<File>>, source: seq<nat>)
    requires ClassesInReverseOrder(g, sccs) && CyclicOnes(g, sccs, cyclic, source)
    ensures forall c, d, x, y | 0 <= c < |cyclic| && 0 <= d < |cyclic| && x in cyclic[c] && y in cyclic[d] ::
      c == d <==> Reaches(g, x, y) && Reaches(g, y, x)
  {
    hide Reaches, Graph.Nodes, HasCycle;
    forall c, d, x, y | 0 <= c < |cyclic| && 0 <= d < |cyclic| && x in cyclic[c] && y in cyclic[d]
      ensures c == d <==> Reaches(g, x, y) && Reaches(g, y, x)
    {
      assert x in sccs[source[c]] && y in sccs[source[d]];
      assert source[c] == source[d] <==> c == d;
    }
  }

  method ReportOn(graph: Graph, ghost sccs: seq<seq<File>>, ghost k: nat, scc: seq<File>, loops: seq<File>)
    returns (report: Report)
    requires ClassesInReverseOrder(graph, sccs) && k < |sccs| && scc == sccs[k] && HasCycle(graph, scc)
    requires forall f :: f in loops <==> f in graph.Succ(f)
    ensures Shows(graph, scc, report)
  {
    CyclicTest(graph, sccs, k);
    if |scc| == 1 && scc[0] in loops {
      return SelfImport(scc[0]);
    }
    var cycle := FindCyclePath(scc[0], FileSet(scc), graph);
    ghost var p :| WalkFromTo(graph, p, scc[0], scc[0]) && |p| >= 2;
    CycleStaysInClass(graph, sccs, k, scc[0], p);
    report := match cycle case Some(path) => Cycle(path) case None => Mutual(scc);
  }

  /** The run reports one real cycle per cyclic component, never falls back to
      the unordered listing, and exits with 0 iff the graph is acyclic. */
  method Run(graph: Graph) returns (exitCode: int, cyclic: seq<seq<File>>, reports: seq<Report>)
    requires graph.Valid()
    ensures exitCode == 0 <==> Acyclic(graph)
    ensures exitCode == 0 || exitCode == 1
    ensures |reports| == |cyclic|
    ensures forall c :: 0 <= c < |cyclic| ==> Shows(graph, cyclic[c], reports[c])
    ensures forall x :: OnCycle(graph, x) <==> exists c :: 0 <= c < |cyclic| && x in cyclic[c]
    ensures forall c, d, x, y | 0 <= c < |cyclic| && 0 <= d < |cyclic| && x in cyclic[c] && y in cyclic[d] ::
      c == d <==> Reaches(graph, x, y) && Reaches(graph, y, x)
  {
    hide Shows, ClassesInReverseOrder, HasCycle, OnCycle, Reaches, CyclicOnes;
    var sccs := FindSccs(graph);
    var loops := SelfLoops(graph);
    ghost var source;
    cyclic, source := Filter(graph, sccs, loops);
    CyclicFiles(graph, sccs, cyclic, source);
    CyclicClasses(graph, sccs, cyclic, source);
    if cyclic == [] {
      return 0, cyclic, [];
    }
    reports := ReportAll(graph, sccs, source, cyclic, loops);
    exitCode := 1;
  }

  /** The reporting loop. */
  method ReportAll(graph: Graph, ghost sccs: seq<seq<File>>, ghost source: seq<nat>, cyclic: seq<seq<File>>,
                   loops: seq<File>)
    returns (reports: seq<Report>)
    requires ClassesInReverseOrder(graph, sccs) && CyclicOnes(graph, sccs, cyclic, source)
    requires forall f :: f in loops <==> f in graph.Succ(f)
    ensures |reports| == |cyclic|
    ensures forall c :: 0 <= c < |cyclic| ==> Shows(graph, cyclic[c], reports[c])
  {
    hide Shows, ClassesInReverseOrder, HasCycle, Reaches;
    reports := [];
    for c := 0 to |cyclic|
      invariant |reports| == c
      invariant forall d :: 0 <= d < c ==> Shows(graph, cyclic[d], reports[d])
    {
      assert source[c] in source;
      var report := ReportOn(graph, sccs, source[c], cyclic[c], loops);
      reports := reports + [report];
    }
  }
}
