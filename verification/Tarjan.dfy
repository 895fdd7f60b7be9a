/**
  `findSccs` of scripts/detect-import-cycles.ts: Tarjan's algorithm with its
  recursive closure `strongconnect` over shared mutable state.
*/
module Tarjan {
  import opened ImportGraph

  /** A snapshot of the closure's variables other than `lowlink`. */
  datatype State = State(
    index: map<File, nat>, stack: seq<File>, onStack: set<File>,
    sccs: seq<seq<File>>, counter: nat)

  ghost function Members(sccs: seq<seq<File>>): set<File> {
    set k, f | 0 <= k < |sccs| && f in sccs[k] :: f
  }

  /** Files are numbered in visiting order; the stack holds, in that order, the
      numbered files that are in no finished component. */
  ghost predicate Numbered(g: Graph, s: State) {
    && s.index.Keys <= g.Nodes()
    && (forall f :: f in s.index ==> s.index[f] < s.counter)
    && (forall f :: f in s.onStack <==> f in s.stack)
    && s.index.Keys == s.onStack + Members(s.sccs)
    && s.onStack !! Members(s.sccs)
    && (forall i, j :: 0 <= i < j < |s.stack| ==> s.index[s.stack[i]] < s.index[s.stack[j]])
  }

  /** Every numbered file outside `active`, the set of calls in progress, has all
      its imports numbered. */
  ghost predicate Scanned(g: Graph, s: State, active: set<File>) {
    && active <= s.onStack
    && forall x, y :: x in s.index && x !in active && y in g.Succ(x) ==> y in s.index
  }

  /** The stack as a graph: an active file reaches everything pushed after it,
      and everything on the stack reaches some active file pushed before it. */
  ghost predicate Linked(g: Graph, s: State, active: set<File>)
    requires s.onStack <= s.index.Keys && active <= s.onStack
    requires forall f :: f in s.onStack <==> f in s.stack
  {
    && (forall x, y :: x in active && y in s.onStack && s.index[x] <= s.index[y] ==> Reaches(g, x, y))
    && (forall y {:trigger Anchored(g, s, active, y)} :: y in s.onStack ==> Anchored(g, s, active, y))
  }

  ghost predicate Anchored(g: Graph, s: State, active: set<File>, y: File)
    requires active <= s.index.Keys && y in s.index
  {
    exists x :: x in active && s.index[x] <= s.index[y] && Reaches(g, y, x)
  }

  /** Finished components are disjoint, free of repetitions, strongly connected,
      and closed downwards in the order they were finished. */
  ghost predicate Components(g: Graph, sccs: seq<seq<File>>) {
    && (forall k :: 0 <= k < |sccs| ==> |sccs[k]| > 0)
    && (forall k, i, j :: 0 <= k < |sccs| && 0 <= i < j < |sccs[k]| ==> sccs[k][i] != sccs[k][j])
    && (forall k, l, f :: 0 <= k < l < |sccs| && f in sccs[k] ==> f !in sccs[l])
    && (forall k, x, y :: 0 <= k < |sccs| && x in sccs[k] && y in sccs[k] ==> Reaches(g, x, y))
    && (forall k :: 0 <= k <= |sccs| ==> Closed(g, Members(sccs[..k])))
  }

  ghost predicate Inv(g: Graph, s: State, active: set<File>) {
    && Numbered(g, s)
    && Scanned(g, s, active)
    && Linked(g, s, active)
    && Components(g, s.sccs)
  }

  /** What one call leaves behind for its caller: earlier numbers are
      kept, the stack and the list of components only grow. */
  ghost predicate Extends(s0: State, s1: State) {
    && s0.index.Keys <= s1.index.Keys
    && (forall f :: f in s0.index ==> s1.index[f] == s0.index[f])
    && s0.counter <= s1.counter
    && s0.stack <= s1.stack
    && s0.sccs <= s1.sccs
  }

  /** `low` is at most the number of any file of `s0.stack` that an edge from the
      files pushed since position `from` leads to. */
  ghost predicate BoundsEdges(g: Graph, low: nat, s: State, below: seq<File>, from: nat)
    requires from <= |s.stack| && (forall f :: f in below ==> f in s.index)
  {
    forall k, y :: from <= k < |s.stack| && y in g.Succ(s.stack[k]) && y in below ==> low <= s.index[y]
  }

  /** The number of some file on the stack that v reaches. */
  ghost predicate NumberReached(g: Graph, low: nat, s: State, v: File)
    requires forall f :: f in s.stack ==> f in s.index
  {
    exists y :: y in s.stack && s.index[y] == low && Reaches(g, v, y)
  }

  /** The meaning of v's lowlink when the call for v returns. */
  ghost predicate LowlinkMeans(g: Graph, s0: State, s1: State, v: File, low: nat)
    requires s0.stack <= s1.stack
    requires forall f :: f in s1.stack ==> f in s1.index
  {
    && BoundsEdges(g, low, s1, s0.stack, |s0.stack|)
    && if v in s1.stack then NumberReached(g, low, s1, v)
       else s1.stack == s0.stack && low >= s0.counter
  }

  // ---- the proof steps of strongconnect -------------------------------------

  /** The state in which the call for v starts scanning. */
  ghost function Entered(s: State, v: File): State {
    State(s.index[v := s.counter], s.stack + [v],
          s.onStack + {v}, s.sccs, s.counter + 1)
  }

  lemma EnterNumbered(g: Graph, s: State, v: File)
    requires Numbered(g, s) && v in g.Nodes() && v !in s.index
    ensures Numbered(g, Entered(s, v))
  {
    assert Entered(s, v).stack[|s.stack|] == v;
  }

  lemma EnterLinked(g: Graph, s: State, active: set<File>, v: File)
    requires Numbered(g, s) && active <= s.onStack && Linked(g, s, active)
    requires v !in s.index && Numbered(g, Entered(s, v))
    requires forall x :: x in active ==> Reaches(g, x, v)
    ensures Linked(g, Entered(s, v), active + {v})
  {
    var s1 := Entered(s, v);
    ReachesSelf(g, v);
    forall x, y | x in active + {v} && y in s1.onStack && s1.index[x] <= s1.index[y]
      ensures Reaches(g, x, y)
    {
    }
    forall y | y in s1.onStack
      ensures Anchored(g, s1, active + {v}, y)
    {
      if y != v {
        assert Anchored(g, s, active, y);
      }
    }
  }

  lemma EnterKeepsInv(g: Graph, s: State, active: set<File>, v: File)
    requires Inv(g, s, active) && v in g.Nodes() && v !in s.index
    requires forall x :: x in active ==> Reaches(g, x, v)
    ensures Inv(g, Entered(s, v), active + {v})
    ensures NumberReached(g, s.counter, Entered(s, v), v)
  {
    EnterNumbered(g, s, v);
    EnterLinked(g, s, active, v);
    ReachesSelf(g, v);
    assert v in Entered(s, v).stack;
  }

  function Min(a: nat, b: nat): nat {
    if a < b then a else b
  }

  /** The state of the call for v after the first i imports of v, when v's lowlink is `low`. */
  ghost predicate Scanning(g: Graph, s0: State, s: State, active: set<File>, v: File, i: nat, low: nat)
    requires i <= |g.Succ(v)|
  {
    && Inv(g, s, active + {v})
    && Extends(s0, s)
    && v !in s0.index && v in s.index && s.index[v] == s0.counter
    && s0.stack + [v] <= s.stack
    && ScanLow(g, s0, s, v, i, low)
  }

  ghost predicate ScanLow(g: Graph, s0: State, s: State, v: File, i: nat, low: nat)
    requires i <= |g.Succ(v)| && v in s.index && s0.stack + [v] <= s.stack
    requires forall f :: f in s.stack ==> f in s.index
  {
    && low <= s.index[v]
    && NumberReached(g, low, s, v)
    && (forall j :: 0 <= j < i ==> g.Succ(v)[j] in s.index)
    && (forall j :: 0 <= j < i && g.Succ(v)[j] in s0.stack ==> low <= s.index[g.Succ(v)[j]])
    && (forall f :: f in s0.stack ==> f in s.stack)
    && BoundsEdges(g, low, s, s0.stack, |s0.stack| + 1)
  }

  lemma ScanStarts(g: Graph, s0: State, active: set<File>, v: File)
    requires Inv(g, s0, active) && v in g.Nodes() && v !in s0.index
    requires forall x :: x in active ==> Reaches(g, x, v)
    ensures Scanning(g, s0, Entered(s0, v), active, v, 0, s0.counter)
  {
    EnterKeepsInv(g, s0, active, v);
  }

  lemma NumberedLow(g: Graph, s0: State, s: State, v: File, i: nat, low: nat)
    requires i < |g.Succ(v)| && v in s.index && s0.stack + [v] <= s.stack
    requires forall f :: f in s.onStack <==> f in s.stack
    requires forall f :: f in s.stack ==> f in s.index
    requires ScanLow(g, s0, s, v, i, low) && g.Succ(v)[i] in s.index
    ensures var w := g.Succ(v)[i];
            ScanLow(g, s0, s, v, i + 1, if w in s.onStack then Min(low, s.index[w]) else low)
  {
    ReachesEdge(g, v, g.Succ(v)[i]);
  }

  /** An import that was already numbered when it was scanned. */
  lemma ScanNumbered(g: Graph, s0: State, s: State, active: set<File>, v: File, i: nat, low: nat)
    requires i < |g.Succ(v)| && Scanning(g, s0, s, active, v, i, low)
    requires g.Succ(v)[i] in s.index
    ensures var w := g.Succ(v)[i];
            Scanning(g, s0, s, active, v, i + 1, if w in s.onStack then Min(low, s.index[w]) else low)
  {
    NumberedLow(g, s0, s, v, i, low);
  }

  lemma ActiveReachesImport(g: Graph, s0: State, s: State, active: set<File>, v: File, i: nat, low: nat)
    requires i < |g.Succ(v)| && Scanning(g, s0, s, active, v, i, low)
    requires Inv(g, s0, active)
    ensures forall x :: x in active + {v} ==> Reaches(g, x, g.Succ(v)[i])
    ensures Inv(g, s, active + {v}) && g.Succ(v)[i] in g.Nodes()
    ensures v in s.index && s0.index.Keys <= s.index.Keys && v !in s0.index
  {
    assert v in g.imports && g.Succ(v)[i] in g.imports[v];
    forall x | x in active + {v}
      ensures Reaches(g, x, g.Succ(v)[i])
    {
      assert s.stack[|s0.stack|] == v;
      assert x == v || s0.index[x] < s0.counter;
      ReachesEdge(g, v, g.Succ(v)[i]);
      ReachesTrans(g, x, v, g.Succ(v)[i]);
    }
  }

  /** What a nested call on w leaves for the caller that is scanning v. */
  ghost predicate Returned(g: Graph, s: State, t: State, active: set<File>, w: File, low: nat) {
    && Inv(g, t, active)
    && Extends(s, t)
    && w in t.index
    && LowlinkMeans(g, s, t, w, low)
  }

  lemma CallLowlink(g: Graph, s: State, t: State, v: File, low: nat, w: File, lowW: nat)
    requires Extends(s, t) && (forall f :: f in t.stack ==> f in t.index)
    requires forall f :: f in s.stack ==> f in s.index
    requires v in s.index && low <= s.index[v] < s.counter && NumberReached(g, low, s, v)
    requires w in g.Succ(v) && LowlinkMeans(g, s, t, w, lowW)
    ensures NumberReached(g, Min(low, lowW), t, v)
  {
    if low <= lowW {
      var y :| y in s.stack && s.index[y] == low && Reaches(g, v, y);
      assert y in t.stack;
    } else {
      var y :| y in t.stack && t.index[y] == lowW && Reaches(g, w, y);
      ReachesEdge(g, v, w);
      ReachesTrans(g, v, w, y);
    }
  }

  lemma CallBounds(g: Graph, s0: State, s: State, t: State, from: nat, low: nat, lowW: nat)
    requires s0.stack <= s.stack && from <= |s.stack| && Extends(s, t)
    requires forall f :: f in s.stack ==> f in s.index
    requires BoundsEdges(g, low, s, s0.stack, from)
    requires BoundsEdges(g, lowW, t, s.stack, |s.stack|)
    ensures BoundsEdges(g, Min(low, lowW), t, s0.stack, from)
  {
    forall k, y | from <= k < |t.stack| && y in g.Succ(t.stack[k]) && y in s0.stack
      ensures Min(low, lowW) <= t.index[y]
    {
      assert y in s.stack;
      if k < |s.stack| {
        assert t.stack[k] == s.stack[k];
        assert low <= s.index[y];
      }
    }
  }

  lemma CallScanLow(g: Graph, s0: State, s: State, t: State, v: File, i: nat, low: nat, lowW: nat)
    requires i < |g.Succ(v)| && v in s.index && s.index[v] < s.counter && s0.stack + [v] <= s.stack
    requires forall f :: f in s.stack ==> f in s.index
    requires ScanLow(g, s0, s, v, i, low)
    requires Extends(s, t) && (forall f :: f in t.stack ==> f in t.index)
    requires g.Succ(v)[i] in t.index && g.Succ(v)[i] !in s.index
    requires LowlinkMeans(g, s, t, g.Succ(v)[i], lowW)
    ensures s0.stack + [v] <= t.stack && ScanLow(g, s0, t, v, i + 1, Min(low, lowW))
  {
    CallLowlink(g, s, t, v, low, g.Succ(v)[i], lowW);
    CallBounds(g, s0, s, t, |s0.stack| + 1, low, lowW);
  }

  /** An import that was numbered by a nested call. */
  lemma ScanCalled(g: Graph, s0: State, s: State, t: State, active: set<File>, v: File, i: nat, low: nat, lowW: nat)
    requires i < |g.Succ(v)| && Scanning(g, s0, s, active, v, i, low)
    requires Returned(g, s, t, active + {v}, g.Succ(v)[i], lowW)
    requires g.Succ(v)[i] !in s.index
    ensures Scanning(g, s0, t, active, v, i + 1, Min(low, lowW))
  {
    CallScanLow(g, s0, s, t, v, i, low, lowW);
  }

  /** Leaving v on the stack: v now hangs below an older active file. */
  lemma LeaveOnStack(g: Graph, s0: State, s: State, active: set<File>, v: File, low: nat)
    requires Inv(g, s0, active) && Scanning(g, s0, s, active, v, |g.Succ(v)|, low)
    requires low < s.index[v]
    ensures Returned(g, s0, s, active, v, low)
  {
    assert Scanned(g, s, active);
    LeaveLinked(g, s, active, v, low);
    assert s.stack[|s0.stack|] == v;
  }

  lemma LeaveLinked(g: Graph, s: State, active: set<File>, v: File, low: nat)
    requires Numbered(g, s) && active + {v} <= s.onStack && Linked(g, s, active + {v})
    requires NumberReached(g, low, s, v) && low < s.index[v]
    ensures Linked(g, s, active)
  {
    hide Reaches, Anchored;
    var z :| z in s.stack && s.index[z] == low && Reaches(g, v, z);
    forall y | y in s.onStack
      ensures Anchored(g, s, active, y)
    {
      Reanchor(g, s, active, v, y, z);
    }
  }

  lemma Reanchor(g: Graph, s: State, active: set<File>, v: File, y: File, z: File)
    requires Numbered(g, s) && active + {v} <= s.onStack && Linked(g, s, active + {v})
    requires y in s.onStack && z in s.onStack && Reaches(g, v, z) && s.index[z] < s.index[v]
    ensures Anchored(g, s, active, y)
  {
    assert Anchored(g, s, active + {v}, y) && Anchored(g, s, active + {v}, z);
    var x :| x in active + {v} && s.index[x] <= s.index[y] && Reaches(g, y, x);
    if x == v {
      var x' :| x' in active + {v} && s.index[x'] <= s.index[z] && Reaches(g, z, x');
      ReachesTrans(g, y, v, z);
      ReachesTrans(g, y, z, x');
    }
  }

  /** The files above v on the stack, v included: the component that is popped. */
  ghost function Popped(s0: State, s: State): set<File>
    requires |s0.stack| <= |s.stack|
  {
    Above(s.stack, |s0.stack|)
  }

  ghost function Above(stack: seq<File>, base: nat): set<File>
    requires base <= |stack|
  {
    set k | base <= k < |stack| :: stack[k]
  }

  lemma PoppedAreNew(g: Graph, s0: State, s: State, y: File)
    requires Numbered(g, s) && Extends(s0, s)
    ensures y in Popped(s0, s) ==> y !in s0.stack
    ensures y in s.stack && y !in s0.stack ==> y in Popped(s0, s)
  {
    forall k, i | |s0.stack| <= k < |s.stack| && 0 <= i < |s0.stack|
      ensures s.stack[k] != s0.stack[i]
    {
      assert s0.stack[i] == s.stack[i];
      assert s.index[s.stack[i]] < s.index[s.stack[k]];
    }
  }

  /** No edge leaves the popped files and the components finished before them. */
  lemma PoppedClosed(g: Graph, s0: State, s: State, active: set<File>, v: File, low: nat)
    requires Numbered(g, s0) && active <= s0.onStack
    requires Scanning(g, s0, s, active, v, |g.Succ(v)|, low) && low == s.index[v]
    ensures Closed(g, Members(s.sccs) + Popped(s0, s))
  {
    forall x, y | x in Members(s.sccs) + Popped(s0, s) && y in g.Succ(x)
      ensures y in Members(s.sccs) + Popped(s0, s)
    {
      if x in Members(s.sccs) {
        assert s.sccs[..|s.sccs|] == s.sccs;
      } else {
        PoppedEdge(g, s0, s, active, v, low, x, y);
      }
    }
  }

  lemma PoppedEdge(g: Graph, s0: State, s: State, active: set<File>, v: File, low: nat, x: File, y: File)
    requires Numbered(g, s0) && active <= s0.onStack
    requires Scanning(g, s0, s, active, v, |g.Succ(v)|, low) && low == s.index[v]
    requires x in Popped(s0, s) && y in g.Succ(x)
    ensures y in Members(s.sccs) + Popped(s0, s)
  {
    PoppedAreNew(g, s0, s, x);
    PoppedAreNew(g, s0, s, y);
    PoppedEdgeBound(g, s0, s, active, v, low, x, y);
  }

  lemma PoppedEdgeBound(g: Graph, s0: State, s: State, active: set<File>, v: File, low: nat, x: File, y: File)
    requires Scanning(g, s0, s, active, v, |g.Succ(v)|, low)
    requires x in Popped(s0, s) && y in g.Succ(x) && x !in active
    ensures y in s.index
    ensures y in s0.stack ==> low <= s.index[y]
  {
    var k :| |s0.stack| <= k < |s.stack| && x == s.stack[k];
    assert s.stack[|s0.stack|] == v;
  }

  /** The popped files all reach each other. */
  lemma PoppedConnected(g: Graph, s0: State, s: State, active: set<File>, v: File, x: File, y: File)
    requires Numbered(g, s0) && active <= s0.onStack
    requires Numbered(g, s) && Extends(s0, s) && s0.stack + [v] <= s.stack
    requires active + {v} <= s.onStack && Linked(g, s, active + {v})
    requires Closed(g, Members(s.sccs) + Popped(s0, s))
    requires x in Popped(s0, s) && y in Popped(s0, s)
    ensures Reaches(g, x, y)
  {
    PoppedReached(g, s0, s, active, v, y);
    assert s.stack[|s0.stack|] == v;
    assert x in s.onStack && Anchored(g, s, active + {v}, x);
    var a :| a in active + {v} && s.index[a] <= s.index[x] && Reaches(g, x, a);
    ClosedReach(g, Members(s.sccs) + Popped(s0, s), x, a);
    PoppedAreNew(g, s0, s, a);
    assert a == v;
    ReachesTrans(g, x, v, y);
  }

  lemma PoppedReached(g: Graph, s0: State, s: State, active: set<File>, v: File, y: File)
    requires Numbered(g, s) && s0.stack + [v] <= s.stack
    requires active + {v} <= s.onStack && Linked(g, s, active + {v})
    requires y in Popped(s0, s)
    ensures Reaches(g, v, y)
  {
    assert s.stack[|s0.stack|] == v;
    var k :| |s0.stack| <= k < |s.stack| && y == s.stack[k];
    assert s.index[v] <= s.index[y];
  }

  /** The state after the pop loop has moved the popped files into a component. */
  ghost function Closing(s0: State, s: State, scc: seq<File>): State {
    State(s.index, s0.stack, s.onStack - (set f | f in scc), s.sccs + [scc], s.counter)
  }

  ghost predicate Lists(scc: seq<File>, files: set<File>) {
    && (forall f :: f in scc <==> f in files)
    && (forall i, j :: 0 <= i < j < |scc| ==> scc[i] != scc[j])
  }

  lemma MembersAppend(sccs: seq<seq<File>>, scc: seq<File>)
    ensures Members(sccs + [scc]) == Members(sccs) + set f | f in scc
  {
    var all := sccs + [scc];
    assert all[|sccs|] == scc;
    forall f | f in Members(sccs) + set f | f in scc
      ensures f in Members(all)
    {
      if f in Members(sccs) {
        var k :| 0 <= k < |sccs| && f in sccs[k];
        assert f in all[k];
      }
    }
  }

  lemma ClosingNumbered(g: Graph, s0: State, s: State, scc: seq<File>)
    requires Numbered(g, s0) && Numbered(g, s) && Extends(s0, s) && Lists(scc, Popped(s0, s))
    ensures Numbered(g, Closing(s0, s, scc))
  {
    var t := Closing(s0, s, scc);
    MembersAppend(s.sccs, scc);
    forall f
      ensures f in t.onStack <==> f in t.stack
    {
      PoppedAreNew(g, s0, s, f);
      assert f in s0.stack ==> f in s.stack;
    }
    forall i, j | 0 <= i < j < |t.stack|
      ensures t.index[t.stack[i]] < t.index[t.stack[j]]
    {
      assert t.stack[i] == s.stack[i] && t.stack[j] == s.stack[j];
    }
  }

  lemma ClosingLinked(g: Graph, s0: State, s: State, active: set<File>, v: File, scc: seq<File>)
    requires Numbered(g, s0) && Numbered(g, s) && Extends(s0, s) && active <= s0.onStack
    requires v in s.index && s.index[v] == s0.counter
    requires active + {v} <= s.onStack && Linked(g, s, active + {v})
    requires Numbered(g, Closing(s0, s, scc))
    ensures Linked(g, Closing(s0, s, scc), active)
  {
    hide Reaches;
    var t := Closing(s0, s, scc);
    forall y | y in t.onStack
      ensures Anchored(g, t, active, y)
    {
      assert y in s0.stack;
      assert Anchored(g, s, active + {v}, y);
    }
  }

  lemma ClosingComponents(g: Graph, s0: State, s: State, active: set<File>, v: File, scc: seq<File>)
    requires Numbered(g, s0) && active <= s0.onStack
    requires Numbered(g, s) && Extends(s0, s) && s0.stack + [v] <= s.stack
    requires active + {v} <= s.onStack && Linked(g, s, active + {v})
    requires Closed(g, Members(s.sccs) + Popped(s0, s))
    requires Components(g, s.sccs) && Lists(scc, Popped(s0, s))
    ensures Components(g, s.sccs + [scc])
  {
    forall x, y | x in Popped(s0, s) && y in Popped(s0, s)
      ensures Reaches(g, x, y)
    {
      PoppedConnected(g, s0, s, active, v, x, y);
    }
    assert s.stack[|s0.stack|] in scc;
    ComponentsAppend(g, s0, s, scc);
  }

  lemma ComponentsAppend(g: Graph, s0: State, s: State, scc: seq<File>)
    requires Components(g, s.sccs) && Numbered(g, s) && |s0.stack| < |s.stack|
    requires Lists(scc, Popped(s0, s)) && |scc| > 0
    requires Closed(g, Members(s.sccs) + Popped(s0, s))
    requires forall x, y :: x in Popped(s0, s) && y in Popped(s0, s) ==> Reaches(g, x, y)
    ensures Components(g, s.sccs + [scc])
  {
    var n, all := |s.sccs|, s.sccs + [scc];
    forall k, l, f | 0 <= k < l < |all| && f in all[k]
      ensures f !in all[l]
    {
      if l == n {
        assert f in Members(s.sccs);
        assert f !in s.stack;
      }
    }
    forall k | 0 <= k <= |all|
      ensures Closed(g, Members(all[..k]))
    {
      if k <= n {
        assert all[..k] == s.sccs[..k];
      } else {
        assert all[..k] == all;
        MembersAppend(s.sccs, scc);
        assert Members(all) == Members(s.sccs) + Popped(s0, s);
      }
    }
  }

  lemma ComponentTop(g: Graph, s0: State, s: State, active: set<File>, v: File, i: nat, low: nat)
    requires i <= |g.Succ(v)| && Scanning(g, s0, s, active, v, i, low)
    ensures |s0.stack| < |s.stack| && s.stack[|s0.stack|] == v && s.stack[..|s0.stack|] == s0.stack
    ensures forall i, j :: 0 <= i < j < |s.stack| ==> s.stack[i] != s.stack[j]
    ensures v in s.index && low <= s.index[v]
  {
    assert s.stack[|s0.stack|] == v;
  }

  lemma ClosingScanned(g: Graph, s0: State, s: State, active: set<File>, v: File, low: nat, scc: seq<File>)
    requires Numbered(g, Closing(s0, s, scc)) && active <= s0.onStack && Numbered(g, s0)
    requires Scanning(g, s0, s, active, v, |g.Succ(v)|, low)
    ensures Scanned(g, Closing(s0, s, scc), active)
  {
    hide Numbered, Linked, Components, NumberReached, BoundsEdges;
    forall x | x in active
      ensures x in Closing(s0, s, scc).onStack
    {
      ActiveStaysOnStack(g, s0, s, scc, x);
    }
  }

  lemma ActiveStaysOnStack(g: Graph, s0: State, s: State, scc: seq<File>, x: File)
    requires Numbered(g, s0) && Numbered(g, Closing(s0, s, scc)) && x in s0.onStack
    ensures x in Closing(s0, s, scc).onStack
  {
  }

  lemma ClosingInv(g: Graph, s0: State, s: State, active: set<File>, v: File, low: nat, scc: seq<File>)
    requires Inv(g, s0, active) && Scanning(g, s0, s, active, v, |g.Succ(v)|, low)
    requires low == s.index[v] && Lists(scc, Popped(s0, s))
    ensures Inv(g, Closing(s0, s, scc), active)
  {
    hide Components, Numbered, Reaches;
    ClosingNumbered(g, s0, s, scc);
    ClosingScanned(g, s0, s, active, v, low, scc);
    ClosingLinked(g, s0, s, active, v, scc);
    PoppedClosed(g, s0, s, active, v, low);
    ClosingComponents(g, s0, s, active, v, scc);
  }

  /** Popping v's component restores the invariant for v's caller. */
  lemma LeaveWithComponent(g: Graph, s0: State, s: State, active: set<File>, v: File, low: nat, scc: seq<File>)
    requires Inv(g, s0, active) && Scanning(g, s0, s, active, v, |g.Succ(v)|, low)
    requires low == s.index[v] && Lists(scc, Popped(s0, s))
    ensures Returned(g, s0, Closing(s0, s, scc), active, v, low)
  {
    ClosingInv(g, s0, s, active, v, low, scc);
    assert v !in s0.stack;
  }

  // ---- the algorithm ---------------------------------------------------------

  class SccFinder {
    const graph: Graph
    var index: map<File, nat>
    var lowlink: map<File, nat>
    var stack: seq<File>
    var onStack: set<File>
    var sccs: seq<seq<File>>
    var counter: nat

    constructor (graph: Graph)
      ensures this.graph == graph
      ensures View() == State(map[], [], {}, [], 0) && lowlink == map[]
    {
      this.graph := graph;
      index, lowlink, stack, onStack, sccs, counter := map[], map[], [], {}, [], 0;
    }

    ghost function View(): State
      reads this
    {
      State(index, stack, onStack, sccs, counter)
    }

    /** `active` is the chain of calls in progress, outermost call included. */
    method StrongConnect(v: File, ghost active: set<File>)
      requires Inv(graph, View(), active) && lowlink.Keys == index.Keys
      requires v in graph.Nodes() && v !in index
      requires forall x :: x in active ==> Reaches(graph, x, v)
      modifies this
      ensures lowlink.Keys == index.Keys && v in index
      ensures forall f :: f in old(lowlink) ==> f in lowlink && lowlink[f] == old(lowlink[f])
      ensures Returned(graph, old(View()), View(), active, v, lowlink[v])
      decreases graph.Nodes() - index.Keys, 0
    {
      hide Inv, Scanning, Returned, Reaches, Lists, Above, Graph.Nodes, Graph.Succ;
      ghost var s0 := View();
      index := index[v := counter];
      lowlink := lowlink[v := counter];
      counter := counter + 1;
      stack := stack + [v];
      onStack := onStack + {v};
      ScanStarts(graph, s0, active, v);

      var imports := graph.Succ(v);
      for i := 0 to |imports|
        invariant lowlink.Keys == index.Keys && v in index && s0.index.Keys < index.Keys
        invariant forall f :: f in old(lowlink) ==> f in lowlink && lowlink[f] == old(lowlink[f])
        invariant Scanning(graph, s0, View(), active, v, i, lowlink[v])
      {
        ScanImport(v, i, active, s0);
      }

      ghost var s1 := View();
      ComponentTop(graph, s0, s1, active, v, |imports|, lowlink[v]);
      if lowlink[v] == index[v] {
        var scc := PopComponent(v, |s0.stack|);
        sccs := sccs + [scc];
        LeaveWithComponent(graph, s0, s1, active, v, lowlink[v], scc);
      } else {
        LeaveOnStack(graph, s0, s1, active, v, lowlink[v]);
      }
    }

    /** The body of the loop over v's imports; s0 is the state before the call for v. */
    method ScanImport(v: File, i: nat, ghost active: set<File>, ghost s0: State)
      requires i < |graph.Succ(v)| && Inv(graph, s0, active)
      requires lowlink.Keys == index.Keys && v in index
      requires Scanning(graph, s0, View(), active, v, i, lowlink[v])
      modifies this
      ensures lowlink.Keys == index.Keys && old(index.Keys) <= index.Keys
      ensures forall f :: f in old(lowlink) && f != v ==> f in lowlink && lowlink[f] == old(lowlink[f])
      ensures v in index && Scanning(graph, s0, View(), active, v, i + 1, lowlink[v])
      decreases graph.Nodes() - index.Keys, 1
    {
      hide Inv, Scanning, Reaches, LowlinkMeans, Graph.Nodes, Graph.Succ;
      ghost var s, low := View(), lowlink[v];
      var w := graph.Succ(v)[i];
      if w !in index {
        ActiveReachesImport(graph, s0, s, active, v, i, low);
        StrongConnect(w, active + {v});
        ScanCalled(graph, s0, s, View(), active, v, i, low, lowlink[w]);
        lowlink := lowlink[v := Min(lowlink[v], lowlink[w])];
      } else {
        ScanNumbered(graph, s0, s, active, v, i, low);
        if w in onStack {
          lowlink := lowlink[v := Min(lowlink[v], index[w])];
        }
      }
    }

    /** The `do ... while (w !== v)` loop. */
    method PopComponent(v: File, ghost base: nat) returns (scc: seq<File>)
      requires base < |stack| && stack[base] == v
      requires forall i, j :: 0 <= i < j < |stack| ==> stack[i] != stack[j]
      modifies `stack, `onStack
      ensures stack == old(stack)[..base]
      ensures Lists(scc, Above(old(stack), base))
      ensures onStack == old(onStack) - set f | f in scc
    {
      scc := [];
      ghost var all := stack;
      while true
        invariant base < |stack| && |stack| + |scc| == |all| && stack == all[..|stack|]
        invariant forall k :: 0 <= k < |scc| ==> scc[k] == all[|all| - 1 - k]
        invariant onStack == old(onStack) - set f | f in scc
        decreases |stack|
      {
        var w := stack[|stack| - 1];
        stack := stack[..|stack| - 1];
        onStack := onStack - {w};
        scc := scc + [w];
        if w == v { break; }
      }
      forall f
        ensures f in scc <==> f in Above(all, base)
      {
        if f in scc {
          var k :| 0 <= k < |scc| && scc[k] == f;
          assert all[|all| - 1 - k] == f;
        }
        if k :| base <= k < |all| && all[k] == f {
          assert scc[|all| - 1 - k] == f;
        }
      }
    }
  }

  // ---- what the result means -------------------------------------------------

  /** The components are exactly the mutual-reachability classes of the graph:
      each node is listed once, two nodes share a component iff each reaches the
      other, and a component comes after every component it can reach. */
  ghost predicate ClassesInReverseOrder(g: Graph, sccs: seq<seq<File>>) {
    && (forall x :: x in g.Nodes() <==> exists k :: 0 <= k < |sccs| && x in sccs[k])
    && (forall k :: 0 <= k < |sccs| ==> |sccs[k]| > 0)
    && (forall k, i, l, j | 0 <= k < |sccs| && 0 <= i < |sccs[k]| && 0 <= l < |sccs| && 0 <= j < |sccs[l]| ::
        sccs[k][i] == sccs[l][j] ==> k == l && i == j)
    && (forall k, l, x, y | 0 <= k < |sccs| && 0 <= l < |sccs| && x in sccs[k] && y in sccs[l] ::
        k == l <==> Reaches(g, x, y) && Reaches(g, y, x))
    && (forall k, l, x, y | 0 <= k < |sccs| && 0 <= l < |sccs| && x in sccs[k] && y in sccs[l] ::
        Reaches(g, x, y) ==> l <= k)
  }

  lemma ReachesEarlier(g: Graph, sccs: seq<seq<File>>, k: nat, l: nat, x: File, y: File)
    requires Components(g, sccs) && k < |sccs| && l < |sccs| && x in sccs[k] && y in sccs[l]
    requires Reaches(g, x, y)
    ensures l <= k
  {
    assert sccs[..k + 1][k] == sccs[k];
    ClosedReach(g, Members(sccs[..k + 1]), x, y);
    var m :| 0 <= m < k + 1 && y in sccs[..k + 1][m];
    assert y in sccs[m];
  }

  lemma ComponentsAreClasses(g: Graph, sccs: seq<seq<File>>)
    requires Components(g, sccs) && Members(sccs) == g.Nodes()
    ensures ClassesInReverseOrder(g, sccs)
  {
    hide Reaches, Closed;
    forall k, l, x, y | 0 <= k < |sccs| && 0 <= l < |sccs| && x in sccs[k] && y in sccs[l] && Reaches(g, x, y)
      ensures l <= k
    {
      ReachesEarlier(g, sccs, k, l, x, y);
    }
    forall k, i, l, j | 0 <= k < |sccs| && 0 <= i < |sccs[k]| && 0 <= l < |sccs| && 0 <= j < |sccs[l]|
                        && sccs[k][i] == sccs[l][j]
      ensures k == l && i == j
    {
      assert sccs[k][i] in sccs[k] && sccs[k][i] in sccs[l];
    }
  }

  lemma StackHasActive(g: Graph, s: State, active: set<File>)
    requires Inv(g, s, active) && s.onStack != {}
    ensures active != {}
  {
    var y :| y in s.onStack;
    assert Anchored(g, s, active, y);
  }

  /** With no call in progress the stack is empty, so every numbered file is in a component. */
  lemma AllFinished(g: Graph, s: State)
    requires g.Valid() && Inv(g, s, {}) && (forall f :: f in g.files ==> f in s.index)
    ensures Components(g, s.sccs) && Members(s.sccs) == g.Nodes()
  {
    if s.onStack != {} {
      StackHasActive(g, s, {});
    }
    forall y | y in g.Nodes()
      ensures y in s.index
    {
      if y !in g.imports {
        var f :| f in g.imports && y in g.imports[f];
        assert y in g.Succ(f);
      }
    }
  }

  method FindSccs(graph: Graph) returns (sccs: seq<seq<File>>)
    requires graph.Valid()
    ensures ClassesInReverseOrder(graph, sccs)
  {
    var nodes := graph.files;
    var finder := new SccFinder(graph);
    StartInv(graph);
    hide Inv, Returned;
    for i := 0 to |nodes|
      invariant fresh(finder) && finder.graph == graph
      invariant Inv(graph, finder.View(), {}) && finder.lowlink.Keys == finder.index.Keys
      invariant forall j :: 0 <= j < i ==> nodes[j] in finder.index
    {
      if nodes[i] !in finder.index {
        ghost var s := finder.View();
        finder.StrongConnect(nodes[i], {});
        ReturnedKeeps(graph, s, finder.View(), {}, nodes[i], finder.lowlink[nodes[i]]);
      }
    }
    sccs := finder.sccs;
    AllFinished(graph, finder.View());
    ComponentsAreClasses(graph, sccs);
  }

  lemma StartInv(g: Graph)
    ensures Inv(g, State(map[], [], {}, [], 0), {})
  {
  }

  lemma ReturnedKeeps(g: Graph, s: State, t: State, active: set<File>, w: File, low: nat)
    requires Returned(g, s, t, active, w, low)
    ensures Inv(g, t, active) && s.index.Keys <= t.index.Keys
  {
  }
}
