/**
 Which cycle the search reports, without the search: from the first root that leads to a cycle, always on to the
 first neighbour that leads to one, until a node comes up again.
 */
module FirstCycle {
  import opened Prelude
  import opened DependencySearch
  import opened Manifest
  import NameOrder

  /** Some walk from `n` comes to a node twice. */
  ghost predicate LeadsToCycle(adj: Adjacency, n: string) {
    exists path :: Repeating(adj, n, path)
  }

  ghost predicate Repeating(adj: Adjacency, n: string, path: seq<string>) {
    path != [] && path[0] == n && Walk(adj, path) && !Distinct(path)
  }

  /** `n` is the first of the choices that leads to a cycle. */
  ghost predicate FirstThatLeads(adj: Adjacency, choices: seq<string>, n: string) {
    LeadsToCycle(adj, n) && exists k: nat :: k < |choices| && choices[k] == n && forall j :: 0 <= j < k ==> !LeadsToCycle(adj, choices[j])
  }

  ghost predicate Onward(adj: Adjacency, a: string, b: string) {
    a in adj && FirstThatLeads(adj, adj[a], b)
  }

  /** The walk that takes the first choice everywhere, up to the first node it comes to again. */
  ghost predicate Greedy(adj: Adjacency, roots: seq<string>, walk: seq<string>) {
    && |walk| >= 2 && FirstThatLeads(adj, roots, walk[0])
    && (forall i, j :: 0 <= i < j == i + 1 < |walk| ==> Onward(adj, walk[i], walk[j]))
    && Distinct(walk[..|walk| - 1]) && walk[|walk| - 1] in walk[..|walk| - 1]
  }

  /** The last node's visit at place `k` begins the path. */
  ghost predicate RecursAt(walk: seq<string>, path: seq<string>, k: nat) {
    k < |walk| - 1 && walk[k] == walk[|walk| - 1] && path == walk[k..]
  }

  /** The cycle at the end of such a walk: from the first visit of its last node on. */
  ghost predicate EndsInCycle(walk: seq<string>, path: seq<string>) {
    exists k: nat :: RecursAt(walk, path, k)
  }

  lemma FirstThatLeadsIsUnique(adj: Adjacency, choices: seq<string>, m: string, n: string)
    requires FirstThatLeads(adj, choices, m) && FirstThatLeads(adj, choices, n)
    ensures m == n
  {
    var k: nat :| k < |choices| && choices[k] == m && forall j :: 0 <= j < k ==> !LeadsToCycle(adj, choices[j]);
    var l: nat :| l < |choices| && choices[l] == n && forall j :: 0 <= j < l ==> !LeadsToCycle(adj, choices[j]);
  }

  lemma {:induction false} GreedyAgree(adj: Adjacency, roots: seq<string>, v: seq<string>, w: seq<string>, i: nat)
    requires Greedy(adj, roots, v) && Greedy(adj, roots, w) && i < |v| && i < |w|
    ensures v[i] == w[i]
  {
    if i == 0 {
      FirstThatLeadsIsUnique(adj, roots, v[0], w[0]);
    } else {
      var h := i - 1;
      GreedyAgree(adj, roots, v, w, h);
      assert Onward(adj, v[h], v[i]) && Onward(adj, w[h], w[i]);
      FirstThatLeadsIsUnique(adj, adj[v[h]], v[i], w[i]);
    }
  }

  lemma RepeatIsLast(walk: seq<string>, i: nat, j: nat)
    requires walk != [] && Distinct(walk[..|walk| - 1]) && i < j < |walk| && walk[i] == walk[j]
    ensures j == |walk| - 1
  {
    var init := walk[..|walk| - 1];
    assert forall k :: 0 <= k < |init| ==> init[k] == walk[k];
  }

  /** There is only one such walk. */
  lemma GreedyIsUnique(adj: Adjacency, roots: seq<string>, v: seq<string>, w: seq<string>)
    requires Greedy(adj, roots, v) && Greedy(adj, roots, w) && |v| <= |w|
    ensures v == w
  {
    forall i | 0 <= i < |v| ensures v[i] == w[i] { GreedyAgree(adj, roots, v, w, i); }
    var last := |v| - 1;
    var i :| 0 <= i < last && v[..last][i] == v[last];
    assert w[i] == v[i] == v[last] == w[last];
    RepeatIsLast(w, i, last);
  }

  // ---- the search takes it --------------------------------------------------------------------

  /** From a finished node no walk comes to a node twice. */
  lemma FinishedLeadsNowhere(adj: Adjacency, finished: seq<string>, n: string)
    requires DependenciesFirst(adj, finished) && Distinct(finished) && n in finished
    ensures !LeadsToCycle(adj, n)
  {
    forall path | path != [] && path[0] == n && Walk(adj, path) ensures Distinct(path) {
      WalkFromFinished(adj, finished, path);
    }
  }

  lemma WalkFromFinished(adj: Adjacency, finished: seq<string>, path: seq<string>)
    requires DependenciesFirst(adj, finished) && Distinct(finished) && path != [] && path[0] in finished && Walk(adj, path)
    ensures Distinct(path)
  {
    var i :| 0 <= i < |finished| && finished[i] == path[0];
    forall a, b | 0 <= a < b < |path| ensures path[a] != path[b] {
      WalkDescends(adj, finished, path, i, a);
      var k :| 0 <= k <= i - a && finished[k] == path[a];
      WalkTail(adj, path, a);
      WalkDescends(adj, finished, path[a..], k, b - a);
      var l :| 0 <= l <= k - (b - a) && finished[l] == path[a..][b - a];
    }
  }

  lemma WalkTail(adj: Adjacency, path: seq<string>, a: nat)
    requires Walk(adj, path) && a <= |path|
    ensures Walk(adj, path[a..])
  {
    forall m | 0 <= m < |path[a..]| - 1 ensures Edge(adj, path[a..][m], path[a..][m + 1]) {
      assert Edge(adj, path[a + m], path[a + m + 1]);
    }
  }

  lemma WalksJoin(adj: Adjacency, a: seq<string>, b: seq<string>)
    requires Walk(adj, a) && Walk(adj, b) && a != [] && b != [] && Edge(adj, a[|a| - 1], b[0])
    ensures Walk(adj, a + b)
  {
    var path := a + b;
    forall m | 0 <= m < |path| - 1 ensures Edge(adj, path[m], path[m + 1]) {
      if m < |a| - 1 {
        assert Edge(adj, a[m], a[m + 1]);
      } else if m >= |a| {
        assert Edge(adj, b[m - |a|], b[m - |a| + 1]);
      }
    }
  }

  /** With an edge back from the top to node `k`, every node of the stack leads to a cycle. */
  lemma StackLeadsToCycle(adj: Adjacency, nodes: seq<string>, k: nat, i: nat)
    requires Walk(adj, nodes) && k < |nodes| && i < |nodes| && Edge(adj, nodes[|nodes| - 1], nodes[k])
    ensures LeadsToCycle(adj, nodes[i])
  {
    var m := if i <= k then k else i;
    var a, b := nodes[i..], nodes[k..][..m + 1 - k];
    WalkTail(adj, nodes, i);
    WalkTail(adj, nodes, k);
    assert Walk(adj, b) by {
      forall j | 0 <= j < |b| - 1 ensures Edge(adj, b[j], b[j + 1]) { assert Edge(adj, nodes[k..][j], nodes[k..][j + 1]); }
    }
    WalksJoin(adj, a, b);
    var path := a + b;
    assert path[m - i] == nodes[m] && path[|path| - 1] == nodes[m];
    assert Repeating(adj, nodes[i], path);
  }

  /** The roots tried so far are finished, but for the one at the bottom of the stack. */
  ghost predicate RootsTried(s: Search, roots: seq<string>) {
    && |s.roots| <= |roots| && s.roots == roots[|roots| - |s.roots|..]
    && (s.nodes != [] ==> |s.roots| < |roots| && roots[|roots| - |s.roots| - 1] == s.nodes[0])
    && forall j :: 0 <= j < |roots| - |s.roots| - (if s.nodes == [] then 0 else 1) ==> roots[j] in s.finished
  }

  lemma RootsTriedStep(adj: Adjacency, s: Search, roots: seq<string>)
    requires Typed(adj, s) && RootsTried(s, roots) && !Halted(s) && !BackEdge(s)
    ensures RootsTried(Step(adj, s), roots)
  {
    if s.nodes == [] {
      assert s.roots[1..] == roots[|roots| - |s.roots| + 1..];
    } else if Pending(s) == [] {
      assert forall n :: n in s.finished ==> n in Finish(s).finished;
      assert Node(s) in Finish(s).finished;
    }
  }

  /** Every stack node is the first choice from the one below it. */
  lemma StackIsGreedy(adj: Adjacency, s: Search, i: nat)
    requires Inv(adj, s) && BackEdge(s) && i < |s.nodes|
    ensures FirstThatLeads(adj, adj[s.nodes[i]], if i + 1 < |s.nodes| then s.nodes[i + 1] else Pending(s)[0])
  {
    var all, left, end := adj[s.nodes[i]], s.pendings[i], Pending(s)[0];
    var next := if i + 1 < |s.nodes| then s.nodes[i + 1] else end;
    assert Taken(adj, s, |s.nodes| - 1) && Taken(adj, s, i);
    var k :| 0 <= k < |s.nodes| && s.nodes[k] == end;
    assert end == adj[Node(s)][|adj[Node(s)]| - |Pending(s)|];
    StackLeadsToCycle(adj, s.nodes, k, if i + 1 < |s.nodes| then i + 1 else k);
    var taken := if i + 1 < |s.nodes| then |all| - |left| - 1 else |all| - |left|;
    assert all[taken] == next;
    var first := FirstPlace(all, next, taken);
    forall j | 0 <= j < first ensures !LeadsToCycle(adj, all[j]) {
      assert all[j] in s.finished;
      FinishedLeadsNowhere(adj, s.finished, all[j]);
    }
  }

  lemma FirstPlace(all: seq<string>, n: string, at: nat) returns (first: nat)
    requires at < |all| && all[at] == n
    ensures first <= at && all[first] == n && forall j :: 0 <= j < first ==> all[j] != n
  {
    first := 0;
    while all[first] != n
      invariant first <= at && forall j :: 0 <= j < first ==> all[j] != n
      decreases at - first
    {
      first := first + 1;
    }
  }

  lemma FirstRoot(adj: Adjacency, s: Search, roots: seq<string>)
    requires Inv(adj, s) && RootsTried(s, roots) && BackEdge(s)
    ensures FirstThatLeads(adj, roots, s.nodes[0])
  {
    assert Taken(adj, s, |s.nodes| - 1);
    assert Pending(s)[0] == adj[Node(s)][|adj[Node(s)]| - |Pending(s)|];
    var k :| 0 <= k < |s.nodes| && s.nodes[k] == Pending(s)[0];
    StackLeadsToCycle(adj, s.nodes, k, 0);
    var r := |roots| - |s.roots| - 1;
    forall j | 0 <= j < r ensures !LeadsToCycle(adj, roots[j]) { FinishedLeadsNowhere(adj, s.finished, roots[j]); }
    assert roots[r] == s.nodes[0];
  }

  lemma BackEdgeIsGreedy(adj: Adjacency, s: Search, roots: seq<string>)
    requires Inv(adj, s) && RootsTried(s, roots) && BackEdge(s)
    ensures Greedy(adj, roots, s.nodes + [Pending(s)[0]])
  {
    var walk := s.nodes + [Pending(s)[0]];
    FirstRoot(adj, s, roots);
    assert walk[..|walk| - 1] == s.nodes;
    forall i, j | 0 <= i < j == i + 1 < |walk| ensures Onward(adj, walk[i], walk[j]) {
      StackIsGreedy(adj, s, i);
    }
  }

  lemma PathEndsWalk(nodes: seq<string>, end: string)
    requires Distinct(nodes) && end in nodes
    ensures EndsInCycle(nodes + [end], CyclePath(nodes, end))
  {
    var k := CyclePathIsStackSuffix(nodes, end);
    assert (nodes + [end])[k..] == nodes[k..] + [end];
    assert RecursAt(nodes + [end], CyclePath(nodes, end), k);
  }

  ghost predicate ReportsFirst(adj: Adjacency, roots: seq<string>, path: seq<string>) {
    exists walk :: Greedy(adj, roots, walk) && EndsInCycle(walk, path)
  }

  ghost predicate Reported(adj: Adjacency, roots: seq<string>, v: Verdict) {
    v.Cyclic? ==> ReportsFirst(adj, roots, v.path)
  }

  lemma BackEdgeReports(adj: Adjacency, s: Search, roots: seq<string>)
    requires Inv(adj, s) && RootsTried(s, roots) && BackEdge(s)
    ensures Reported(adj, roots, Cyclic(CyclePath(s.nodes, Pending(s)[0])))
  {
    BackEdgeIsGreedy(adj, s, roots);
    PathEndsWalk(s.nodes, Pending(s)[0]);
  }

  /** What the search may rely on, and what it has to keep. */
  ghost predicate Underway(adj: Adjacency, s: Search, roots: seq<string>) {
    Inv(adj, s) && RootsTried(s, roots)
  }

  lemma UnderwayOn(adj: Adjacency, s: Search, roots: seq<string>)
    requires Underway(adj, s, roots) && !Halted(s) && !BackEdge(s)
    ensures Underway(adj, Step(adj, s), roots)
  {
    StepKeepsInv(adj, s);
    RootsTriedStep(adj, s, roots);
  }

  lemma {:induction false} RunReportsFirst(adj: Adjacency, s: Search, roots: seq<string>)
    requires Typed(adj, s) && Underway(adj, s, roots)
    ensures Reported(adj, roots, Run(adj, s))
    decreases Whites(adj, s), Work(s)
  {
    if Halted(s) {
      assert Run(adj, s).Acyclic?;
    } else if BackEdge(s) {
      BackEdgeReports(adj, s, roots);
    } else {
      StepProgress(adj, s);
      UnderwayOn(adj, s, roots);
      RunReportsFirst(adj, Step(adj, s), roots);
    }
  }

  /** The path both checkers report: roots in ascending order, dependencies in manifest order, the first choice everywhere. */
  lemma ReportedCycleIsFirst(services: seq<ServiceEntry>)
    ensures SearchVerdict(services).Cyclic? ==>
              ReportsFirst(Graph(services), NameOrder.Sorted(Names(services)), SearchVerdict(services).path)
  {
    var g, roots := Graph(services), NameOrder.Sorted(Names(services));
    GraphIsDependsOn(services);
    StartInv(g, roots);
    RunReportsFirst(g, Start(roots), roots);
  }

  /** And that fixes it: there is one path of this kind. */
  lemma FirstCycleIsUnique(adj: Adjacency, roots: seq<string>, p: seq<string>, q: seq<string>)
    requires ReportsFirst(adj, roots, p) && ReportsFirst(adj, roots, q)
    ensures p == q
  {
    var v :| Greedy(adj, roots, v) && EndsInCycle(v, p);
    var w :| Greedy(adj, roots, w) && EndsInCycle(w, q);
    if |v| <= |w| { GreedyIsUnique(adj, roots, v, w); } else { GreedyIsUnique(adj, roots, w, v); }
    EndIsUnique(v, p, q);
  }

  lemma OnePlace(s: seq<string>, k: nat, l: nat)
    requires Distinct(s) && k < |s| && l < |s| && s[k] == s[l]
    ensures k == l
  {
  }

  lemma EndIsUnique(walk: seq<string>, p: seq<string>, q: seq<string>)
    requires walk != [] && Distinct(walk[..|walk| - 1]) && EndsInCycle(walk, p) && EndsInCycle(walk, q)
    ensures p == q
  {
    var k: nat :| RecursAt(walk, p, k);
    var l: nat :| RecursAt(walk, q, l);
    OnePlace(walk[..|walk| - 1], k, l);
  }
}
