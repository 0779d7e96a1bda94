/**
 The depth-first search behind the manifest's cycle check, as a reference machine: a stack of frames
 (a node and the neighbours still pending), the nodes finished so far in finishing order, and the roots
 not yet tried. A node on the stack is GRAY, a finished one BLACK, any other WHITE.
 */
module DependencySearch {
  import opened Prelude

  type Adjacency = map<string, seq<string>>

  /**
   `nodes` is the stack from the bottom up and `pendings` the neighbours each of them has still to look at;
   `ticks` counts the passes through the `while stack` loop.
   */
  datatype Search = Search(nodes: seq<string>, pendings: seq<seq<string>>, finished: seq<string>, roots: seq<string>, ticks: nat)

  datatype Verdict = Acyclic(order: seq<string>, ticks: nat) | Cyclic(path: seq<string>)

  /** Every neighbour is itself a node. */
  ghost predicate Closed(adj: Adjacency) {
    forall n, d :: n in adj && d in adj[n] ==> d in adj
  }

  ghost predicate Edge(adj: Adjacency, a: string, b: string) {
    a in adj && b in adj[a]
  }

  /** Consecutive nodes are joined by edges. */
  ghost predicate Walk(adj: Adjacency, path: seq<string>) {
    forall i :: 0 <= i < |path| - 1 ==> Edge(adj, path[i], path[i + 1])
  }

  /** A walk of at least one edge that ends where it starts. A self-loop is one. */
  ghost predicate ClosedWalk(adj: Adjacency, path: seq<string>) {
    |path| >= 2 && path[0] == path[|path| - 1] && Walk(adj, path)
  }

  ghost predicate HasCycle(adj: Adjacency) {
    exists path :: ClosedWalk(adj, path)
  }

  /** A closed walk that visits no node twice before it closes. */
  ghost predicate SimpleCycle(adj: Adjacency, path: seq<string>) {
    ClosedWalk(adj, path) && Distinct(path[..|path| - 1])
  }

  /** `order` lists the nodes once each, and every node after all its neighbours. */
  ghost predicate Topological(adj: Adjacency, order: seq<string>) {
    && Distinct(order)
    && (forall n :: n in adj <==> n in order)
    && DependenciesFirst(adj, order)
  }

  ghost predicate DependenciesFirst(adj: Adjacency, order: seq<string>) {
    forall i, d :: 0 <= i < |order| && Edge(adj, order[i], d) ==> d in order[..i]
  }

  /** Number of edges leaving the listed nodes. */
  ghost function Degrees(adj: Adjacency, nodes: seq<string>): nat {
    if nodes == [] then 0
    else
      var n := nodes[|nodes| - 1];
      Degrees(adj, nodes[..|nodes| - 1]) + if n in adj then |adj[n]| else 0
  }

  ghost function Total(pendings: seq<seq<string>>): nat {
    if pendings == [] then 0 else |pendings[|pendings| - 1]| + Total(pendings[..|pendings| - 1])
  }

  // ---- the machine ----------------------------------------------------------

  /** The names in play are nodes of the graph. */
  ghost predicate Typed(adj: Adjacency, s: Search) {
    && Closed(adj)
    && |s.nodes| == |s.pendings|
    && (forall n :: n in s.nodes ==> n in adj)
    && (forall i, d :: 0 <= i < |s.pendings| && d in s.pendings[i] ==> d in adj)
    && (forall n :: n in s.finished ==> n in adj)
    && (forall n :: n in s.roots ==> n in adj)
  }

  ghost predicate Halted(s: Search) {
    s.nodes == [] && s.roots == []
  }

  ghost function Node(s: Search): string
    requires s.nodes != []
  {
    s.nodes[|s.nodes| - 1]
  }

  ghost function Pending(s: Search): seq<string>
    requires s.pendings != []
  {
    s.pendings[|s.pendings| - 1]
  }

  /** The next pending neighbour is GRAY. */
  ghost predicate BackEdge(s: Search) {
    s.pendings != [] && Pending(s) != [] && Pending(s)[0] in s.nodes
  }

  ghost function Consume(s: Search): Search
    requires s.pendings != [] && Pending(s) != []
  {
    s.(pendings := s.pendings[..|s.pendings| - 1] + [Pending(s)[1..]], ticks := s.ticks + 1)
  }

  ghost function Push(adj: Adjacency, s: Search, n: string): Search
    requires n in adj
  {
    s.(nodes := s.nodes + [n], pendings := s.pendings + [adj[n]])
  }

  ghost function Finish(s: Search): Search
    requires s.nodes != [] && s.pendings != []
  {
    Search(s.nodes[..|s.nodes| - 1], s.pendings[..|s.pendings| - 1], s.finished + [Node(s)], s.roots, s.ticks + 1)
  }

  /** One move that does not decide the search. */
  ghost function Step(adj: Adjacency, s: Search): Search
    requires Typed(adj, s) && !Halted(s) && !BackEdge(s)
  {
    if s.nodes == [] then
      var rest := s.(roots := s.roots[1..]);
      if s.roots[0] in s.finished then rest else Push(adj, rest, s.roots[0])
    else if Pending(s) == [] then Finish(s)
    else if Pending(s)[0] in s.finished then Consume(s)
    else Push(adj, Consume(s), Pending(s)[0])
  }

  /** The stretch of the stack from `end` to the top, closed by `end` again. */
  ghost function CyclePath(nodes: seq<string>, end: string): seq<string>
    requires end in nodes
  {
    if nodes[0] == end then nodes + [end] else CyclePath(nodes[1..], end)
  }

  ghost function Whites(adj: Adjacency, s: Search): set<string> {
    adj.Keys - (set n | n in s.nodes) - (set n | n in s.finished)
  }

  ghost function Work(s: Search): nat {
    |s.roots| + |s.nodes| + Total(s.pendings)
  }

  ghost predicate Smaller(adj: Adjacency, s': Search, s: Search) {
    Whites(adj, s') < Whites(adj, s) || (Whites(adj, s') == Whites(adj, s) && Work(s') < Work(s))
  }

  lemma PushShrinksWhites(adj: Adjacency, s: Search, s': Search, n: string)
    requires n in adj && n !in s.nodes && n !in s.finished
    requires s'.nodes == s.nodes + [n] && s'.finished == s.finished
    ensures Whites(adj, s') < Whites(adj, s)
  {
    assert n in Whites(adj, s) && n !in Whites(adj, s');
  }

  lemma ConsumeWork(s: Search)
    requires s.pendings != [] && Pending(s) != []
    ensures Work(Consume(s)) < Work(s)
  {
  }

  lemma FinishKeepsWhites(adj: Adjacency, s: Search)
    requires s.nodes != [] && s.pendings != []
    ensures Whites(adj, Finish(s)) == Whites(adj, s) && Work(Finish(s)) < Work(s)
  {
  }

  lemma PushTyped(adj: Adjacency, s: Search, n: string)
    requires Typed(adj, s) && n in adj
    ensures Typed(adj, Push(adj, s, n))
  {
  }

  lemma ConsumeTyped(adj: Adjacency, s: Search)
    requires Typed(adj, s) && s.pendings != [] && Pending(s) != []
    ensures Typed(adj, Consume(s)) && Pending(s)[0] in adj
  {
  }

  lemma StepTyped(adj: Adjacency, s: Search)
    requires Typed(adj, s) && !Halted(s) && !BackEdge(s)
    ensures Typed(adj, Step(adj, s))
  {
    if s.nodes == [] {
      var rest := s.(roots := s.roots[1..]);
      if s.roots[0] !in s.finished { PushTyped(adj, rest, s.roots[0]); }
    } else if Pending(s) != [] {
      ConsumeTyped(adj, s);
      if Pending(s)[0] !in s.finished { PushTyped(adj, Consume(s), Pending(s)[0]); }
    }
  }

  lemma RootProgress(adj: Adjacency, s: Search)
    requires Typed(adj, s) && s.nodes == [] && s.roots != []
    ensures Smaller(adj, Step(adj, s), s)
  {
    if s.roots[0] !in s.finished { PushShrinksWhites(adj, s, Step(adj, s), s.roots[0]); }
  }

  lemma EdgeProgress(adj: Adjacency, s: Search)
    requires Typed(adj, s) && s.nodes != [] && Pending(s) != [] && !BackEdge(s)
    ensures Smaller(adj, Step(adj, s), s)
  {
    if Pending(s)[0] in s.finished {
      ConsumeWork(s);
    } else {
      PushShrinksWhites(adj, s, Step(adj, s), Pending(s)[0]);
    }
  }

  /** Every step either turns a WHITE node GRAY or uses up a root, a frame or a pending edge. */
  lemma StepProgress(adj: Adjacency, s: Search)
    requires Typed(adj, s) && !Halted(s) && !BackEdge(s)
    ensures Typed(adj, Step(adj, s)) && Smaller(adj, Step(adj, s), s)
  {
    StepTyped(adj, s);
    if s.nodes == [] {
      RootProgress(adj, s);
    } else if Pending(s) == [] {
      FinishKeepsWhites(adj, s);
    } else {
      EdgeProgress(adj, s);
    }
  }

  /** The whole search, to its verdict. */
  ghost function Run(adj: Adjacency, s: Search): Verdict
    requires Typed(adj, s)
    decreases Whites(adj, s), Work(s)
  {
    if Halted(s) then Acyclic(s.finished, s.ticks)
    else if BackEdge(s) then Cyclic(CyclePath(s.nodes, Pending(s)[0]))
    else
      StepProgress(adj, s);
      Run(adj, Step(adj, s))
  }

  ghost function Start(roots: seq<string>): Search {
    Search([], [], [], roots, 0)
  }

  // ---- what every step keeps ------------------------------------------------

  /** No node is on the stack or finished twice. */
  ghost predicate Once(s: Search) {
    Distinct(s.finished) && Distinct(s.nodes) && forall n :: n in s.nodes ==> n !in s.finished
  }

  /** The neighbours of stack node `i` already taken are finished, but for one, taken last, that is next on the stack. */
  ghost predicate Taken(adj: Adjacency, s: Search, i: nat)
    requires i < |s.nodes| == |s.pendings|
  {
    s.nodes[i] in adj &&
    var all, left := adj[s.nodes[i]], s.pendings[i];
    && |left| <= |all|
    && left == all[|all| - |left|..]
    && (i + 1 < |s.nodes| ==> |left| < |all| && all[|all| - |left| - 1] == s.nodes[i + 1])
    && forall j :: 0 <= j < |all| - |left| ==>
         all[j] in s.finished || (i + 1 < |s.nodes| && all[j] == s.nodes[i + 1])
  }

  ghost predicate AllTaken(adj: Adjacency, s: Search)
    requires |s.nodes| == |s.pendings|
  {
    forall i :: 0 <= i < |s.nodes| ==> Taken(adj, s, i)
  }

  /** Every node is finished, on the stack or still a root to come. */
  ghost predicate Covered(adj: Adjacency, s: Search) {
    forall n :: n in adj ==> n in s.finished || n in s.nodes || n in s.roots
  }

  /** The passes made: one per finished node, one per edge looked at. */
  ghost predicate Counted(adj: Adjacency, s: Search) {
    s.ticks + Total(s.pendings) == |s.finished| + Degrees(adj, s.finished) + Degrees(adj, s.nodes)
  }

  ghost predicate Inv(adj: Adjacency, s: Search) {
    && Typed(adj, s) && Once(s) && AllTaken(adj, s)
    && Walk(adj, s.nodes) && DependenciesFirst(adj, s.finished)
    && Covered(adj, s) && Counted(adj, s)
  }

  lemma StepKeepsOnce(adj: Adjacency, s: Search)
    requires Typed(adj, s) && Once(s) && !Halted(s) && !BackEdge(s)
    ensures Once(Step(adj, s))
  {
    if s.nodes == [] {
      if s.roots[0] !in s.finished { DistinctAppend(s.nodes, s.roots[0]); }
    } else if Pending(s) == [] {
      assert s.nodes == Finish(s).nodes + [Node(s)];
      assert Node(s) in s.nodes;
      DistinctAppend(s.finished, Node(s));
    } else if Pending(s)[0] !in s.finished {
      DistinctAppend(s.nodes, Pending(s)[0]);
    }
  }

  lemma PushKeepsCount(adj: Adjacency, s: Search, n: string)
    requires Counted(adj, s) && n in adj
    ensures Counted(adj, Push(adj, s, n))
  {
  }

  lemma ConsumeKeepsCount(adj: Adjacency, s: Search)
    requires Counted(adj, s) && s.pendings != [] && Pending(s) != []
    ensures Counted(adj, Consume(s))
  {
  }

  lemma FinishKeepsCount(adj: Adjacency, s: Search)
    requires Counted(adj, s) && s.nodes != [] && s.pendings != [] && Pending(s) == [] && Node(s) in adj
    ensures Counted(adj, Finish(s))
  {
  }

  lemma FinishKeepsOrder(adj: Adjacency, finished: seq<string>, n: string)
    requires DependenciesFirst(adj, finished)
    requires forall d :: Edge(adj, n, d) ==> d in finished
    ensures DependenciesFirst(adj, finished + [n])
  {
    var after := finished + [n];
    forall i, d | 0 <= i < |after| && Edge(adj, after[i], d) ensures d in after[..i] {
      if i < |finished| {
        assert after[..i] == finished[..i];
      } else {
        assert after[..i] == finished;
      }
    }
  }

  lemma FinishKeepsTaken(adj: Adjacency, s: Search)
    requires |s.nodes| == |s.pendings| > 0 && AllTaken(adj, s)
    ensures AllTaken(adj, Finish(s))
  {
    forall i | 0 <= i < |Finish(s).nodes| ensures Taken(adj, Finish(s), i) { assert Taken(adj, s, i); }
  }

  /** Taking a neighbour off the top frame, either BLACK or pushed at once. */
  lemma ConsumeKeepsTaken(adj: Adjacency, s: Search, s': Search)
    requires |s.nodes| == |s.pendings| > 0 && AllTaken(adj, s) && Pending(s) != [] && Pending(s)[0] in adj
    requires if Pending(s)[0] in s.finished then s' == Consume(s) else s' == Push(adj, Consume(s), Pending(s)[0])
    ensures AllTaken(adj, s') && Edge(adj, Node(s), Pending(s)[0])
  {
    var top := |s.nodes| - 1;
    assert Taken(adj, s, top);
    assert Pending(s)[0] == adj[Node(s)][|adj[Node(s)]| - |Pending(s)|];
    forall i | 0 <= i < |s'.nodes| ensures Taken(adj, s', i) {
      if i <= top { assert Taken(adj, s, i); }
    }
  }

  /** A finished root is passed over. */
  lemma SkipKeepsInv(adj: Adjacency, s: Search)
    requires Inv(adj, s) && s.nodes == [] && s.roots != [] && s.roots[0] in s.finished
    ensures Inv(adj, s.(roots := s.roots[1..]))
  {
    RootsShrink(s);
    assert Counted(adj, s.(roots := s.roots[1..]));
  }

  /** A first frame: nothing is taken yet, and its edges are to come. */
  lemma FirstFrame(adj: Adjacency, s: Search, n: string)
    requires s.nodes == [] && s.pendings == [] && n in adj && Counted(adj, s)
    ensures var s' := Push(adj, s, n);
            s'.nodes == [n] && s'.pendings == [adj[n]] && AllTaken(adj, s') && Walk(adj, s'.nodes) && Counted(adj, s')
  {
    PushKeepsCount(adj, s, n);
  }

  /** A root not yet seen goes on the empty stack. */
  lemma PushRootKeepsInv(adj: Adjacency, s: Search)
    requires Inv(adj, s) && s.nodes == [] && s.roots != [] && s.roots[0] !in s.finished
    ensures Inv(adj, Push(adj, s.(roots := s.roots[1..]), s.roots[0]))
  {
    var rest, n := s.(roots := s.roots[1..]), s.roots[0];
    var s' := Push(adj, rest, n);
    assert Typed(adj, s') by { StepTyped(adj, s); }
    assert Once(s') by { StepKeepsOnce(adj, s); }
    assert AllTaken(adj, s') && Walk(adj, s'.nodes) && Counted(adj, s') by {
      assert Counted(adj, rest);
      FirstFrame(adj, rest, n);
    }
    assert Covered(adj, s') by {
      RootsShrink(s);
      assert s'.nodes == [n];
    }
  }

  lemma RootsShrink(s: Search)
    requires s.roots != []
    ensures forall m :: m in s.roots <==> m == s.roots[0] || m in s.roots[1..]
  {
    assert s.roots == [s.roots[0]] + s.roots[1..];
  }

  lemma RootKeepsInv(adj: Adjacency, s: Search)
    requires Inv(adj, s) && s.nodes == [] && s.roots != []
    ensures Inv(adj, Step(adj, s))
  {
    if s.roots[0] in s.finished {
      SkipKeepsInv(adj, s);
    } else {
      PushRootKeepsInv(adj, s);
    }
  }

  lemma FinishKeepsInv(adj: Adjacency, s: Search)
    requires Inv(adj, s) && s.nodes != [] && Pending(s) == []
    ensures Inv(adj, Finish(s))
  {
    StepProgress(adj, s);
    StepKeepsOnce(adj, s);
    assert Taken(adj, s, |s.nodes| - 1);
    FinishKeepsTaken(adj, s);
    FinishKeepsOrder(adj, s.finished, Node(s));
    FinishKeepsCount(adj, s);
    assert s.nodes == Finish(s).nodes + [Node(s)];
    assert forall i :: 0 <= i < |Finish(s).nodes| ==> Finish(s).nodes[i] == s.nodes[i];
  }

  lemma WalkExtends(adj: Adjacency, nodes: seq<string>, n: string)
    requires Walk(adj, nodes) && (nodes != [] ==> Edge(adj, nodes[|nodes| - 1], n))
    ensures Walk(adj, nodes + [n])
  {
  }

  lemma AdvanceKeepsInv(adj: Adjacency, s: Search)
    requires Inv(adj, s) && s.nodes != [] && Pending(s) != [] && !BackEdge(s)
    ensures Inv(adj, Step(adj, s))
  {
    StepProgress(adj, s);
    StepKeepsOnce(adj, s);
    var n := Pending(s)[0];
    ConsumeKeepsTaken(adj, s, Step(adj, s));
    ConsumeKeepsCount(adj, s);
    if n !in s.finished {
      PushKeepsCount(adj, Consume(s), n);
      WalkExtends(adj, s.nodes, n);
    }
  }

  lemma StepKeepsInv(adj: Adjacency, s: Search)
    requires Inv(adj, s) && !Halted(s) && !BackEdge(s)
    ensures Inv(adj, Step(adj, s))
  {
    if s.nodes == [] {
      RootKeepsInv(adj, s);
    } else if Pending(s) == [] {
      FinishKeepsInv(adj, s);
    } else {
      AdvanceKeepsInv(adj, s);
    }
  }

  // ---- the verdict ----------------------------------------------------------

  lemma {:induction false} CyclePathIsStackSuffix(nodes: seq<string>, end: string) returns (k: nat)
    requires Distinct(nodes) && end in nodes
    ensures k < |nodes| && nodes[k] == end && CyclePath(nodes, end) == nodes[k..] + [end]
  {
    if nodes[0] == end {
      k := 0;
    } else {
      k := CyclePathIsStackSuffix(nodes[1..], end);
      assert nodes[1..][k..] == nodes[k + 1..];
      k := k + 1;
    }
  }

  lemma BackEdgeIsCycle(adj: Adjacency, s: Search)
    requires Inv(adj, s) && BackEdge(s)
    ensures SimpleCycle(adj, CyclePath(s.nodes, Pending(s)[0]))
  {
    var end := Pending(s)[0];
    assert Taken(adj, s, |s.nodes| - 1);
    assert end == adj[Node(s)][|adj[Node(s)]| - |Pending(s)|];
    var k := CyclePathIsStackSuffix(s.nodes, end);
    var path := s.nodes[k..] + [end];
    forall i | 0 <= i < |path| - 1 ensures Edge(adj, path[i], path[i + 1]) {
      if i < |path| - 2 { assert Edge(adj, s.nodes[k + i], s.nodes[k + i + 1]); }
    }
    assert path[..|path| - 1] == s.nodes[k..];
  }

  /** From any state the search can be in: a genuine cycle, or a topological order in nodes + edges passes. */
  lemma {:induction false} RunVerdict(adj: Adjacency, s: Search)
    requires Inv(adj, s)
    ensures match Run(adj, s)
            case Acyclic(order, ticks) => Topological(adj, order) && ticks == |order| + Degrees(adj, order)
            case Cyclic(path) => SimpleCycle(adj, path)
    decreases Whites(adj, s), Work(s)
  {
    if Halted(s) {
    } else if BackEdge(s) {
      BackEdgeIsCycle(adj, s);
    } else {
      StepProgress(adj, s);
      StepKeepsInv(adj, s);
      RunVerdict(adj, Step(adj, s));
    }
  }

  lemma StartInv(adj: Adjacency, roots: seq<string>)
    requires Closed(adj) && forall n :: n in adj <==> n in roots
    ensures Inv(adj, Start(roots))
  {
  }

  /** Along a walk the position in a topological order strictly falls. */
  lemma {:induction false} WalkDescends(adj: Adjacency, order: seq<string>, path: seq<string>, i: nat, j: nat)
    requires DependenciesFirst(adj, order) && Walk(adj, path)
    requires i < |order| && |path| > 0 && order[i] == path[0] && j < |path|
    ensures exists k :: 0 <= k <= i - j && order[k] == path[j]
  {
    if j > 0 {
      assert Edge(adj, path[0], path[1]);
      var i' :| 0 <= i' < i && order[i'] == path[1];
      assert Walk(adj, path[1..]) by {
        forall m | 0 <= m < |path[1..]| - 1 ensures Edge(adj, path[1..][m], path[1..][m + 1]) {
          assert Edge(adj, path[m + 1], path[m + 1 + 1]);
        }
      }
      WalkDescends(adj, order, path[1..], i', j - 1);
    }
  }

  lemma TopologicalMeansAcyclic(adj: Adjacency, order: seq<string>)
    requires Topological(adj, order)
    ensures !HasCycle(adj)
  {
    forall path | ClosedWalk(adj, path) ensures false {
      assert Edge(adj, path[0], path[1]);
      var i :| 0 <= i < |order| && order[i] == path[0];
      WalkDescends(adj, order, path, i, |path| - 1);
    }
  }

  /** The search started on any enumeration of the nodes rejects exactly the cyclic graphs. */
  lemma SearchDecides(adj: Adjacency, roots: seq<string>)
    requires Closed(adj) && forall n :: n in adj <==> n in roots
    ensures Run(adj, Start(roots)).Cyclic? <==> HasCycle(adj)
    ensures Run(adj, Start(roots)).Cyclic? ==> SimpleCycle(adj, Run(adj, Start(roots)).path)
    ensures Run(adj, Start(roots)).Acyclic? ==>
              var v := Run(adj, Start(roots));
              Topological(adj, v.order) && v.ticks == |v.order| + Degrees(adj, v.order)
  {
    StartInv(adj, roots);
    RunVerdict(adj, Start(roots));
    var v := Run(adj, Start(roots));
    if v.Acyclic? {
      TopologicalMeansAcyclic(adj, v.order);
    }
  }
}
