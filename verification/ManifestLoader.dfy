/**
 The manifest checks as the loader and the schema script run them: colour and parent dictionaries, a stack of
 mutable pending lists, and two dictionaries filled in one pass for the duplicate scan.
 */
module ManifestLoader {
  import opened Prelude
  import opened DependencySearch
  import opened Manifest
  import NameOrder

  /** A Python list of names: a heap object that `append` and `pop(0)` change in place. */
  class NameList {
    var items: seq<string>

    constructor (items: seq<string>)
      ensures this.items == items
    {
      this.items := items;
    }
  }

  datatype Colour = White | Gray | Black

  ghost function Contents(adjacency: map<string, NameList>): Adjacency
    reads adjacency.Values
  {
    map n | n in adjacency :: adjacency[n].items
  }

  // ---- building the adjacency dictionary -------------------------------------

  /** The loader's first pass: names are collected and every one gets an empty list. */
  method CollectNames(services: seq<ServiceEntry>) returns (names: set<string>, adjacency: map<string, NameList>)
    ensures names == Names(services) && adjacency.Keys == names && Separate(adjacency)
    ensures forall n :: n in adjacency ==> fresh(adjacency[n]) && adjacency[n].items == []
  {
    names, adjacency := {}, map[];
    for i := 0 to |services|
      invariant names == Names(services[..i]) && adjacency.Keys == names && Separate(adjacency)
      invariant forall n :: n in adjacency ==> fresh(adjacency[n]) && adjacency[n].items == []
    {
      var name := services[i].name;
      var empty := new NameList([]);
      NamesGrow(services, i);
      names := names + {name};
      adjacency := adjacency[name := empty];
    }
    assert services[..|services|] == services;
  }

  lemma NamesGrow(services: seq<ServiceEntry>, i: nat)
    requires i < |services|
    ensures Names(services[..i + 1]) == Names(services[..i]) + {services[i].name}
  {
  }

  /** The script's comprehensions: the set of names first, then one empty list for each. */
  method CollectNamesForScript(services: seq<ServiceEntry>) returns (names: set<string>, adjacency: map<string, NameList>)
    ensures names == Names(services) && adjacency.Keys == names && Separate(adjacency)
    ensures forall n :: n in adjacency ==> fresh(adjacency[n]) && adjacency[n].items == []
  {
    names := set i | 0 <= i < |services| :: services[i].name;
    adjacency := map[];
    var todo := names;
    while todo != {}
      invariant todo <= names && adjacency.Keys == names - todo && Separate(adjacency)
      invariant forall n :: n in adjacency ==> fresh(adjacency[n]) && adjacency[n].items == []
      decreases todo
    {
      var n :| n in todo;
      var empty := new NameList([]);
      adjacency := adjacency[n := empty];
      todo := todo - {n};
    }
  }

  method AppendResident(list: NameList, deps: seq<string>, names: set<string>)
    modifies list
    ensures list.items == old(list.items) + Resident(deps, names)
  {
    for j := 0 to |deps|
      invariant list.items == old(list.items) + Resident(deps[..j], names)
    {
      assert deps[..j + 1][..j] == deps[..j];
      if deps[j] in names {
        list.items := list.items + [deps[j]];
      }
    }
    assert deps[..|deps|] == deps;
  }

  /** The second pass: every in-manifest dependency is appended to its entry's list. */
  method AppendDependencies(services: seq<ServiceEntry>, names: set<string>, adjacency: map<string, NameList>)
    requires names == Names(services) && adjacency.Keys == names && Separate(adjacency)
    requires forall n :: n in adjacency ==> adjacency[n].items == []
    modifies adjacency.Values
    ensures Contents(adjacency) == Graph(services)
  {
    for i := 0 to |services|
      invariant forall n :: n in adjacency ==> adjacency[n].items == Neighbours(services[..i], names, n)
    {
      var name := services[i].name;
      NamesOf(services, name);
      assert services[..i + 1][..i] == services[..i];
      AppendResident(adjacency[name], services[i].dependsOn, names);
    }
    assert services[..|services|] == services;
  }

  // ---- the search ------------------------------------------------------------

  /** The search stack: pairs of a node and its own list of pending neighbours, popped from in place. */
  class PendingStack {
    var frames: seq<(string, NameList)>
    ghost var nodes: seq<string>
    ghost var pendings: seq<seq<string>>
    ghost var lists: set<NameList>

    ghost predicate Valid()
      reads this, lists
    {
      && |nodes| == |pendings| == |frames|
      && (forall i :: 0 <= i < |frames| ==>
            frames[i].1 in lists && frames[i].0 == nodes[i] && frames[i].1.items == pendings[i])
      && (forall i, j :: 0 <= i < j < |frames| ==> frames[i].1 != frames[j].1)
    }

    constructor ()
      ensures Valid() && nodes == [] && pendings == [] && lists == {}
    {
      frames, nodes, pendings, lists := [], [], [], {};
    }

    /** Pushes a copy of `neighbours`, so later pops do not reach the dictionary it came from. */
    method Push(node: string, neighbours: NameList)
      requires Valid()
      modifies this
      ensures Valid() && nodes == old(nodes) + [node] && pendings == old(pendings) + [neighbours.items]
      ensures fresh(lists - old(lists))
    {
      var copy := new NameList(neighbours.items);
      frames, nodes := frames + [(node, copy)], nodes + [node];
      pendings, lists := pendings + [neighbours.items], lists + {copy};
    }

    method Pop()
      requires Valid() && nodes != []
      modifies this
      ensures Valid() && nodes == old(nodes)[..|old(nodes)| - 1] && pendings == old(pendings)[..|old(pendings)| - 1]
      ensures lists == old(lists)
    {
      frames, nodes, pendings := frames[..|frames| - 1], nodes[..|nodes| - 1], pendings[..|pendings| - 1];
    }

    /** `pending.pop(0)` on the top frame. */
    method Take() returns (neighbour: string)
      requires Valid() && pendings != [] && pendings[|pendings| - 1] != []
      modifies this, lists
      ensures neighbour == old(pendings)[|old(pendings)| - 1][0]
      ensures Valid() && nodes == old(nodes) && lists == old(lists)
      ensures pendings == old(pendings)[..|old(pendings)| - 1] + [old(pendings)[|old(pendings)| - 1][1..]]
    {
      var top := |frames| - 1;
      var pending := frames[top].1;
      neighbour := pending.items[0];
      pending.items := pending.items[1..];
      pendings := pendings[..top] + [pendings[top][1..]];
    }
  }

  ghost predicate ColoursMatch(colour: map<string, Colour>, nodes: seq<string>, finished: seq<string>) {
    forall n :: n in colour ==>
      && (colour[n] == Gray <==> n in nodes)
      && (colour[n] == Black <==> n in finished)
  }

  /** Each node on the stack has the node below it as parent; the bottom one has none. */
  ghost predicate ParentsMatch(parent: map<string, Option<string>>, nodes: seq<string>) {
    && (forall n :: n in nodes ==> n in parent)
    && (nodes != [] ==> parent[nodes[0]] == None)
    && (forall i, j :: 0 <= i < j == i + 1 < |nodes| ==> parent[nodes[j]] == Some(nodes[i]))
  }

  function Reverse(s: seq<string>): seq<string> {
    if s == [] then [] else Reverse(s[1..]) + [s[0]]
  }

  lemma {:induction false} ReverseAppend(s: seq<string>, x: string)
    ensures Reverse(s + [x]) == [x] + Reverse(s)
  {
    if s != [] {
      assert (s + [x])[1..] == s[1..] + [x];
      ReverseAppend(s[1..], x);
    }
  }

  lemma {:induction false} ReverseTwice(s: seq<string>)
    ensures Reverse(Reverse(s)) == s
  {
    if s != [] {
      ReverseTwice(s[1..]);
      ReverseAppend(Reverse(s[1..]), s[0]);
    }
  }

  /** Walks the parent chain from `start`; it stops at `end`, never at a missing parent. */
  method ExtractCycle(parent: map<string, Option<string>>, start: string, end: string, ghost nodes: seq<string>)
    returns (path: seq<string>)
    requires ParentsMatch(parent, nodes) && Distinct(nodes)
    requires nodes != [] && start == nodes[|nodes| - 1] && end in nodes
    ensures path == CyclePath(nodes, end)
  {
    ghost var k := CyclePathIsStackSuffix(nodes, end);
    var backwards := [end];
    var node := Some(start);
    ghost var at := |nodes| - 1;
    while node.Some? && node.value != end
      invariant k <= at < |nodes| && node == Some(nodes[at])
      invariant backwards == Reverse(nodes[at + 1..] + [end])
      decreases at
    {
      assert nodes[at..] + [end] == [nodes[at]] + (nodes[at + 1..] + [end]);
      backwards := backwards + [node.value];
      assert at > 0 && nodes[at - 1] in nodes;
      node := parent[node.value];
      at := at - 1;
    }
    assert at == k;
    assert nodes[k..] + [end] == [end] + (nodes[k + 1..] + [end]);
    backwards := backwards + [end];
    ReverseTwice(nodes[k..] + [end]);
    path := Reverse(backwards);
  }

  /** What the search keeps: the dictionaries show the machine's state, and its verdict is still `v`. */
  ghost predicate OnCourse(colour: map<string, Colour>, parent: map<string, Option<string>>, adj: Adjacency, s: Search, v: Verdict) {
    && Typed(adj, s) && Once(s) && Run(adj, s) == v
    && colour.Keys == adj.Keys && parent.Keys == adj.Keys
    && ColoursMatch(colour, s.nodes, s.finished) && ParentsMatch(parent, s.nodes)
  }

  lemma FinishMatches(colour: map<string, Colour>, nodes: seq<string>, finished: seq<string>)
    requires ColoursMatch(colour, nodes, finished) && Distinct(nodes) && nodes != []
    ensures ColoursMatch(colour[nodes[|nodes| - 1] := Black], nodes[..|nodes| - 1], finished + [nodes[|nodes| - 1]])
  {
  }

  lemma DescendMatches(colour: map<string, Colour>, parent: map<string, Option<string>>, nodes: seq<string>, finished: seq<string>, n: string)
    requires ColoursMatch(colour, nodes, finished) && ParentsMatch(parent, nodes)
    requires n in colour && colour[n] == White
    ensures ColoursMatch(colour[n := Gray], nodes + [n], finished)
    ensures ParentsMatch(parent[n := if nodes == [] then None else Some(nodes[|nodes| - 1])], nodes + [n])
  {
  }

  lemma NextRoot(colour: map<string, Colour>, parent: map<string, Option<string>>, adj: Adjacency, s: Search, v: Verdict)
    requires OnCourse(colour, parent, adj, s, v) && s.nodes == [] && s.roots != []
    ensures var n, s' := s.roots[0], Step(adj, s);
            if colour[n] == White then
              OnCourse(colour[n := Gray], parent[n := None], adj, s', v) && s'.nodes == [n] && s'.pendings == [adj[n]]
            else OnCourse(colour, parent, adj, s', v) && s'.nodes == []
  {
    StepProgress(adj, s);
    StepKeepsOnce(adj, s);
    if colour[s.roots[0]] == White { DescendMatches(colour, parent, s.nodes, s.finished, s.roots[0]); }
  }

  lemma FinishTop(colour: map<string, Colour>, parent: map<string, Option<string>>, adj: Adjacency, s: Search, v: Verdict)
    requires OnCourse(colour, parent, adj, s, v) && s.nodes != [] && Pending(s) == []
    ensures OnCourse(colour[Node(s) := Black], parent, adj, Finish(s), v) && Smaller(adj, Finish(s), s)
  {
    StepProgress(adj, s);
    StepKeepsOnce(adj, s);
    FinishMatches(colour, s.nodes, s.finished);
    ParentsBelow(parent, s.nodes);
  }

  lemma ParentsBelow(parent: map<string, Option<string>>, nodes: seq<string>)
    requires ParentsMatch(parent, nodes) && nodes != []
    ensures ParentsMatch(parent, nodes[..|nodes| - 1])
  {
  }

  lemma Descend(colour: map<string, Colour>, parent: map<string, Option<string>>, adj: Adjacency, s: Search, v: Verdict)
    requires OnCourse(colour, parent, adj, s, v) && s.nodes != [] && Pending(s) != []
    requires colour[Pending(s)[0]] == White
    ensures var n, s' := Pending(s)[0], Push(adj, Consume(s), Pending(s)[0]);
            OnCourse(colour[n := Gray], parent[n := Some(Node(s))], adj, s', v) && Smaller(adj, s', s)
  {
    StepProgress(adj, s);
    StepKeepsOnce(adj, s);
    DescendMatches(colour, parent, s.nodes, s.finished, Pending(s)[0]);
  }

  lemma PassOver(colour: map<string, Colour>, parent: map<string, Option<string>>, adj: Adjacency, s: Search, v: Verdict)
    requires OnCourse(colour, parent, adj, s, v) && s.nodes != [] && Pending(s) != []
    requires colour[Pending(s)[0]] == Black
    ensures OnCourse(colour, parent, adj, Consume(s), v) && Smaller(adj, Consume(s), s)
  {
  }

  /** The adjacency lists still read as `adj`, and none of them is a pending list. */
  ghost predicate Untouched(adjacency: map<string, NameList>, adj: Adjacency, pending: set<NameList>)
    reads adjacency.Values
  {
    && adjacency.Keys == adj.Keys
    && forall n :: n in adjacency ==> adjacency[n].items == adj[n] && adjacency[n] !in pending
  }

  /** The stack object and the dictionaries show one machine state. */
  ghost predicate InStep(stack: PendingStack, adjacency: map<string, NameList>, colour: map<string, Colour>,
                         parent: map<string, Option<string>>, adj: Adjacency, s: Search, v: Verdict)
    reads stack, stack.lists, adjacency.Values
  {
    && Untouched(adjacency, adj, stack.lists)
    && stack.Valid() && stack.nodes == s.nodes && stack.pendings == s.pendings && OnCourse(colour, parent, adj, s, v)
  }

  /** The neighbour just taken is WHITE: it turns GRAY and a copy of its list goes on the stack. */
  method DescendInto(stack: PendingStack, node: string, neighbour: string, adjacency: map<string, NameList>,
                     colour0: map<string, Colour>, parent0: map<string, Option<string>>,
                     ghost adj: Adjacency, ghost s: Search, ghost v: Verdict)
    returns (colour: map<string, Colour>, parent: map<string, Option<string>>)
    requires OnCourse(colour0, parent0, adj, s, v) && s.nodes != [] && Pending(s) != []
    requires stack.Valid() && stack.nodes == s.nodes && stack.pendings == Consume(s).pendings
    requires node == Node(s) && neighbour == Pending(s)[0] && neighbour in colour0 && colour0[neighbour] == White
    requires Untouched(adjacency, adj, stack.lists)
    modifies stack
    ensures InStep(stack, adjacency, colour, parent, adj, Push(adj, Consume(s), neighbour), v)
    ensures Smaller(adj, Push(adj, Consume(s), neighbour), s) && fresh(stack.lists - old(stack.lists))
  {
    Descend(colour0, parent0, adj, s, v);
    colour := colour0[neighbour := Gray];
    parent := parent0[neighbour := Some(node)];
    stack.Push(neighbour, adjacency[neighbour]);
  }

  /** Nothing is pending for the top node: it turns BLACK and leaves the stack. */
  method FinishFrame(stack: PendingStack, node: string, adjacency: map<string, NameList>, colour0: map<string, Colour>,
                     ghost parent: map<string, Option<string>>, ghost adj: Adjacency, ghost s: Search, ghost v: Verdict)
    returns (colour: map<string, Colour>)
    requires InStep(stack, adjacency, colour0, parent, adj, s, v) && s.nodes != [] && Pending(s) == [] && node == Node(s)
    modifies stack
    ensures InStep(stack, adjacency, colour, parent, adj, Finish(s), v) && Smaller(adj, Finish(s), s)
    ensures stack.lists == old(stack.lists)
  {
    FinishTop(colour0, parent, adj, s, v);
    colour := colour0[node := Black];
    stack.Pop();
  }

  /** The neighbour just taken off the top frame is GRAY, WHITE or BLACK. */
  method Follow(stack: PendingStack, node: string, neighbour: string, adjacency: map<string, NameList>,
                colour0: map<string, Colour>, parent0: map<string, Option<string>>,
                ghost adj: Adjacency, ghost s0: Search, ghost v: Verdict)
    returns (colour: map<string, Colour>, parent: map<string, Option<string>>, found: Option<seq<string>>, ghost s: Search)
    requires OnCourse(colour0, parent0, adj, s0, v) && s0.nodes != [] && Pending(s0) != []
    requires stack.Valid() && stack.nodes == s0.nodes && stack.pendings == Consume(s0).pendings
    requires node == Node(s0) && neighbour == Pending(s0)[0]
    requires Untouched(adjacency, adj, stack.lists)
    modifies stack
    ensures found.Some? ==> v == Cyclic(found.value)
    ensures found.None? ==> InStep(stack, adjacency, colour, parent, adj, s, v) && s.roots == s0.roots && Smaller(adj, s, s0)
    ensures found.None? ==> s.ticks == s0.ticks + 1
    ensures fresh(stack.lists - old(stack.lists))
  {
    colour, parent, found := colour0, parent0, None;
    if colour[neighbour] == Gray {
      s := s0;
      var cycle := ExtractCycle(parent, node, neighbour, s0.nodes);
      found := Some(cycle);
    } else if colour[neighbour] == White {
      colour, parent := DescendInto(stack, node, neighbour, adjacency, colour, parent, adj, s0, v);
      s := Push(adj, Consume(s0), neighbour);
    } else {
      PassOver(colour, parent, adj, s0, v);
      s := Consume(s0);
    }
  }

  /** One pass of the `while stack` loop. */
  method Visit(stack: PendingStack, adjacency: map<string, NameList>, colour0: map<string, Colour>,
               parent0: map<string, Option<string>>, ghost adj: Adjacency, ghost s0: Search, ghost v: Verdict)
    returns (colour: map<string, Colour>, parent: map<string, Option<string>>, found: Option<seq<string>>, ghost s: Search)
    requires InStep(stack, adjacency, colour0, parent0, adj, s0, v) && stack.frames != []
    modifies stack, stack.lists
    ensures found.Some? ==> v == Cyclic(found.value)
    ensures found.None? ==> InStep(stack, adjacency, colour, parent, adj, s, v) && s.roots == s0.roots && Smaller(adj, s, s0)
    ensures found.None? ==> s.ticks == s0.ticks + 1
    ensures fresh(stack.lists - old(stack.lists))
  {
    var (node, pending) := stack.frames[|stack.frames| - 1];
    if pending.items == [] {
      parent, found, s := parent0, None, Finish(s0);
      colour := FinishFrame(stack, node, adjacency, colour0, parent0, adj, s0, v);
    } else {
      var neighbour := stack.Take();
      colour, parent, found, s := Follow(stack, node, neighbour, adjacency, colour0, parent0, adj, s0, v);
    }
  }

  /** The `while stack` loop; `passes` counts its turns. */
  method Drain(stack: PendingStack, adjacency: map<string, NameList>, colour0: map<string, Colour>,
               parent0: map<string, Option<string>>, ghost adj: Adjacency, ghost start: Search, ghost v: Verdict)
    returns (colour: map<string, Colour>, parent: map<string, Option<string>>, found: Option<seq<string>>, ghost s: Search, ghost passes: nat)
    requires InStep(stack, adjacency, colour0, parent0, adj, start, v)
    modifies stack, stack.lists
    ensures found.Some? ==> v == Cyclic(found.value)
    ensures found.None? ==> s.nodes == [] && s.roots == start.roots && OnCourse(colour, parent, adj, s, v)
    ensures found.None? ==> s.ticks == start.ticks + passes
  {
    colour, parent, found, s, passes := colour0, parent0, None, start, 0;
    while found.None? && stack.frames != []
      invariant fresh(stack.lists - old(stack.lists))
      invariant found.Some? ==> v == Cyclic(found.value)
      invariant found.None? ==> s.roots == start.roots && InStep(stack, adjacency, colour, parent, adj, s, v)
      invariant found.None? ==> s.ticks == start.ticks + passes
      decreases found.None?, Whites(adj, s), Work(s)
    {
      ghost var from := s.ticks;
      colour, parent, found, s := Visit(stack, adjacency, colour, parent, adj, s, v);
      passes := passes + 1;
      assert found.None? ==> s.ticks == from + 1;
    }
  }

  /** Explores everything reachable from a root just turned GRAY. */
  method Explore(root: string, adjacency: map<string, NameList>, colour0: map<string, Colour>,
                 parent0: map<string, Option<string>>, ghost adj: Adjacency, ghost start: Search, ghost v: Verdict)
    returns (colour: map<string, Colour>, parent: map<string, Option<string>>, found: Option<seq<string>>, ghost s: Search, ghost passes: nat)
    requires adj == Contents(adjacency) && OnCourse(colour0, parent0, adj, start, v)
    requires root in adjacency && start.nodes == [root] && start.pendings == [adjacency[root].items]
    ensures found.Some? ==> v == Cyclic(found.value)
    ensures found.None? ==> s.nodes == [] && s.roots == start.roots && OnCourse(colour, parent, adj, s, v)
    ensures found.None? ==> s.ticks == start.ticks + passes
  {
    var stack := new PendingStack();
    stack.Push(root, adjacency[root]);
    colour, parent, found, s, passes := Drain(stack, adjacency, colour0, parent0, adj, start, v);
  }

  /** One turn of the `for root in sorted(names)` loop. */
  method TryRoot(root: string, adjacency: map<string, NameList>, colour0: map<string, Colour>,
                 parent0: map<string, Option<string>>, ghost adj: Adjacency, ghost s0: Search, ghost v: Verdict)
    returns (colour: map<string, Colour>, parent: map<string, Option<string>>, found: Option<seq<string>>, ghost s: Search, ghost passes: nat)
    requires adj == Contents(adjacency) && OnCourse(colour0, parent0, adj, s0, v)
    requires s0.nodes == [] && s0.roots != [] && root == s0.roots[0]
    ensures found.Some? ==> v == Cyclic(found.value)
    ensures found.None? ==> s.nodes == [] && s.roots == s0.roots[1..] && OnCourse(colour, parent, adj, s, v)
    ensures found.None? ==> s.ticks == s0.ticks + passes
  {
    NextRoot(colour0, parent0, adj, s0, v);
    colour, parent, found, s, passes := colour0, parent0, None, Step(adj, s0), 0;
    if colour[root] == White {
      colour, parent, found, s, passes := Explore(root, adjacency, colour[root := Gray], parent[root := None], adj, s, v);
    }
  }

  /**
   The coloured search. It modifies no list that existed before the call: every pending list it pops from is
   its own copy, so the adjacency dictionary is as it was.
   */
  method FindCycle(names: set<string>, roots: seq<string>, adjacency: map<string, NameList>)
    returns (path: Option<seq<string>>, ghost order: seq<string>, ghost passes: nat)
    requires names == adjacency.Keys && Closed(Contents(adjacency)) && forall n :: n in roots ==> n in names
    ensures var v := Run(Contents(adjacency), Start(roots));
            if path.Some? then v == Cyclic(path.value) else v == Acyclic(order, passes)
    ensures path.Some? <==> Run(Contents(adjacency), Start(roots)).Cyclic?
  {
    ghost var adj := Contents(adjacency);
    var colour := map n | n in names :: White;
    var parent: map<string, Option<string>> := map n | n in names :: None;
    ghost var s, v := Start(roots), Run(adj, Start(roots));
    path, passes := None, 0;
    var rest := roots;
    while rest != []
      invariant s.nodes == [] && s.roots == rest && OnCourse(colour, parent, adj, s, v) && s.ticks == passes
      decreases |rest|
    {
      ghost var turns;
      colour, parent, path, s, turns := TryRoot(rest[0], adjacency, colour, parent, adj, s, v);
      passes := passes + turns;
      if path.Some? {
        return path, [], passes;
      }
      rest := rest[1..];
    }
    return None, s.finished, passes;
  }

  // ---- the two entry points ---------------------------------------------------

  method BuildAndSearch(services: seq<ServiceEntry>, names: set<string>, adjacency: map<string, NameList>)
    returns (path: Option<seq<string>>, ghost passes: nat)
    requires names == Names(services) && adjacency.Keys == names && Separate(adjacency)
    requires forall n :: n in adjacency ==> adjacency[n].items == []
    modifies adjacency.Values
    ensures path == if SearchVerdict(services).Cyclic? then Some(SearchVerdict(services).path) else None
    ensures path.None? ==> passes == |Names(services)| + EdgeCount(services, Names(services))
  {
    AppendDependencies(services, names, adjacency);
    GraphIsDependsOn(services);
    var roots := NameOrder.SortNames(names);
    ghost var order;
    path, order, passes := FindCycle(names, roots, adjacency);
    DependencyCheckIsExact(services);
  }

  /** The loader's check: an error carrying the cycle, or nothing after one turn of the inner loop per name and dependency. */
  method CheckNoDependencyCycles(services: seq<ServiceEntry>) returns (r: Result<(), seq<string>>, ghost passes: nat)
    ensures r == if SearchVerdict(services).Cyclic? then Err(SearchVerdict(services).path) else Ok(())
    ensures r.Ok? ==> passes == |Names(services)| + EdgeCount(services, Names(services))
  {
    var names, adjacency := CollectNames(services);
    var path;
    path, passes := BuildAndSearch(services, names, adjacency);
    r := if path.Some? then Err(path.value) else Ok(());
  }

  /** The schema script's twin: same verdict and, on a cycle, the same path. */
  method DetectDependencyCycle(services: seq<ServiceEntry>) returns (path: Option<seq<string>>, ghost passes: nat)
    ensures path == if SearchVerdict(services).Cyclic? then Some(SearchVerdict(services).path) else None
    ensures path.None? ==> passes == |Names(services)| + EdgeCount(services, Names(services))
  {
    var names, adjacency := CollectNamesForScript(services);
    path, passes := BuildAndSearch(services, names, adjacency);
  }

  // ---- duplicate compose names --------------------------------------------------

  ghost predicate AllNamed(services: seq<ServiceEntry>) {
    forall i :: 0 <= i < |services| ==> services[i].composeServiceName.Some?
  }

  ghost predicate HasDuplicate(services: seq<ServiceEntry>) {
    exists i, j :: 0 <= i < j < |services| && services[i].composeServiceName.Some?
                   && services[i].composeServiceName == services[j].composeServiceName
  }

  /** `indices` lists, in order, exactly the first `k` entries called `name`. */
  ghost predicate Positions(services: seq<ServiceEntry>, k: nat, name: string, indices: seq<nat>)
    requires k <= |services|
  {
    && (forall a, b :: 0 <= a < b < |indices| ==> indices[a] < indices[b])
    && (forall i :: i in indices ==> i < k && services[i].composeServiceName == Some(name))
    && (forall i :: 0 <= i < k && services[i].composeServiceName == Some(name) ==> i in indices)
  }

  /** Every name among the first `k` entries, with the first place it is used. */
  ghost predicate Firsts(services: seq<ServiceEntry>, k: nat, seen: map<string, nat>)
    requires k <= |services|
  {
    && (forall n :: n in seen ==> seen[n] < k && services[seen[n]].composeServiceName == Some(n))
    && (forall i :: 0 <= i < k ==>
          services[i].composeServiceName.Some? && var n := services[i].composeServiceName.value; n in seen && seen[n] <= i)
  }

  /** The names used at least twice among the first `k` entries, each with all its positions. */
  ghost predicate Reports(services: seq<ServiceEntry>, k: nat, duplicates: map<string, seq<nat>>)
    requires k <= |services|
  {
    && (forall n :: n in duplicates ==> |duplicates[n]| >= 2 && Positions(services, k, n, duplicates[n]))
    && (forall i, j :: 0 <= i < j < k && services[i].composeServiceName.Some?
                       && services[i].composeServiceName == services[j].composeServiceName ==>
          services[i].composeServiceName.value in duplicates)
  }

  lemma PositionsGrow(services: seq<ServiceEntry>, k: nat, name: string, indices: seq<nat>)
    requires k < |services| && Positions(services, k, name, indices)
    ensures services[k].composeServiceName == Some(name) ==> Positions(services, k + 1, name, indices + [k])
    ensures services[k].composeServiceName != Some(name) ==> Positions(services, k + 1, name, indices)
  {
    var longer := indices + [k];
    forall a, b | 0 <= a < b < |longer| ensures services[k].composeServiceName == Some(name) ==> longer[a] < longer[b] {
      assert longer[a] == indices[a] && indices[a] in indices;
    }
    assert forall i :: i in longer <==> i in indices || i == k;
  }

  /** A name met for the second time: the first place and this one are all its places. */
  lemma SecondUse(services: seq<ServiceEntry>, k: nat, name: string, seen: map<string, nat>, duplicates: map<string, seq<nat>>)
    requires k < |services| && Firsts(services, k, seen) && Reports(services, k, duplicates)
    requires name in seen && name !in duplicates
    ensures Positions(services, k, name, [seen[name]])
  {
  }

  /** Another use of a known name: its list grows by this position. */
  lemma ReportRepeat(services: seq<ServiceEntry>, k: nat, name: string, indices: seq<nat>, duplicates: map<string, seq<nat>>)
    requires k < |services| && services[k].composeServiceName == Some(name) && Reports(services, k, duplicates)
    requires indices != [] && Positions(services, k, name, indices)
    ensures Reports(services, k + 1, duplicates[name := indices + [k]])
  {
    var after := duplicates[name := indices + [k]];
    forall n | n in after ensures |after[n]| >= 2 && Positions(services, k + 1, n, after[n]) {
      PositionsGrow(services, k, n, if n == name then indices else duplicates[n]);
    }
  }

  lemma ReportFirst(services: seq<ServiceEntry>, k: nat, name: string, seen: map<string, nat>, duplicates: map<string, seq<nat>>)
    requires k < |services| && services[k].composeServiceName == Some(name)
    requires Firsts(services, k, seen) && Reports(services, k, duplicates) && name !in seen
    ensures Reports(services, k + 1, duplicates)
  {
    forall n | n in duplicates ensures Positions(services, k + 1, n, duplicates[n]) {
      assert duplicates[n][0] in duplicates[n];
      PositionsGrow(services, k, n, duplicates[n]);
    }
  }

  /** What the scan answers: the full report, or nothing at all once any entry is unnamed. */
  ghost predicate ScanResult(services: seq<ServiceEntry>, duplicates: map<string, seq<nat>>) {
    if AllNamed(services) then Reports(services, |services|, duplicates) else duplicates == map[]
  }

  /** One pass, two dictionaries; a single unnamed entry abandons the check. */
  method CheckUniqueComposeServiceName(services: seq<ServiceEntry>) returns (duplicates: map<string, seq<nat>>)
    ensures ScanResult(services, duplicates)
  {
    var seen: map<string, nat> := map[];
    duplicates := map[];
    for index := 0 to |services|
      invariant Firsts(services, index, seen) && Reports(services, index, duplicates)
    {
      if services[index].composeServiceName.None? {
        return map[];
      }
      var name := services[index].composeServiceName.value;
      if name in seen {
        if name !in duplicates { SecondUse(services, index, name, seen, duplicates); }
        var indices := if name in duplicates then duplicates[name] else [seen[name]];
        ReportRepeat(services, index, name, indices, duplicates);
        duplicates := duplicates[name := indices + [index]];
      } else {
        ReportFirst(services, index, name, seen, duplicates);
        seen := seen[name := index];
      }
    }
  }

  /** What `CheckUniqueComposeServiceName` finds is nothing exactly when no name repeats. */
  lemma EmptyReport(services: seq<ServiceEntry>, duplicates: map<string, seq<nat>>)
    requires Reports(services, |services|, duplicates)
    ensures duplicates != map[] <==> HasDuplicate(services)
  {
    if duplicates != map[] {
      var n :| n in duplicates;
      var i, j := duplicates[n][0], duplicates[n][1];
      assert i in duplicates[n] && j in duplicates[n];
    }
  }

  /** The report is determined by the services. */
  lemma ReportUnique(services: seq<ServiceEntry>, k: nat, d: map<string, seq<nat>>, e: map<string, seq<nat>>)
    requires k <= |services| && Reports(services, k, d) && Reports(services, k, e)
    ensures d == e
  {
    forall n | n in d ensures n in e && d[n] == e[n] { SameReport(services, k, d, e, n); }
    forall n | n in e ensures n in d { SameReport(services, k, e, d, n); }
  }

  lemma SameReport(services: seq<ServiceEntry>, k: nat, d: map<string, seq<nat>>, e: map<string, seq<nat>>, n: string)
    requires k <= |services| && Reports(services, k, d) && Reports(services, k, e) && n in d
    ensures n in e && d[n] == e[n]
  {
    assert d[n][0] in d[n] && d[n][1] in d[n];
    AscendingUnique(d[n], e[n]);
  }

  lemma {:induction false} AscendingUnique(a: seq<nat>, b: seq<nat>)
    requires forall i, j :: 0 <= i < j < |a| ==> a[i] < a[j]
    requires forall i, j :: 0 <= i < j < |b| ==> b[i] < b[j]
    requires forall x :: x in a <==> x in b
    ensures a == b
  {
    assert |b| > 0 ==> b[0] in b;
    if a != [] {
      assert a[0] in a;
      var p :| 0 <= p < |b| && b[p] == a[0];
      var q :| 0 <= q < |a| && a[q] == b[0];
      assert a[0] == b[0];
      forall x ensures x in a[1..] <==> x in b[1..] {
        assert x in a[1..] <==> x in a && x != a[0];
        assert x in b[1..] <==> x in b && x != b[0];
      }
      AscendingUnique(a[1..], b[1..]);
    }
  }

  /**
   The manifest promises that a repeated compose name is rejected. The check keeps that promise for exactly the
   lists in which every entry carries one: an external entry without it switches the whole check off.
   */
  lemma DuplicateCheckIsExact(services: seq<ServiceEntry>, duplicates: map<string, seq<nat>>)
    requires ScanResult(services, duplicates)
    ensures duplicates != map[] <==> AllNamed(services) && HasDuplicate(services)
  {
    if AllNamed(services) { EmptyReport(services, duplicates); }
  }

  /** A schema-valid manifest with a repeated compose name that the check lets through. */
  lemma DuplicateSlipsPastExternalEntry()
    ensures exists services :: SchemaValid(services) && HasDuplicate(services) && ScanResult(services, map[])
  {
    var a := ServiceEntry("api", HttpService, Some("web"), []);
    var b := ServiceEntry("ui", Ui, Some("web"), []);
    var c := ServiceEntry("vllm", External, None, []);
    var services := [a, b, c];
    assert services[0].composeServiceName == services[1].composeServiceName;
    assert services[2].composeServiceName.None?;
    assert SchemaValid(services) && HasDuplicate(services) && ScanResult(services, map[]);
  }

  // ---- load_manifest -------------------------------------------------------------

  datatype LoadError = DuplicateComposeNames(duplicates: map<string, seq<nat>>) | DependencyCycleAt(path: seq<string>)

  /** The entries kept: all but the external ones, in manifest order. */
  ghost function Managed(services: seq<ServiceEntry>): seq<ServiceEntry> {
    if services == [] then []
    else
      var e := services[|services| - 1];
      Managed(services[..|services| - 1]) + if e.kind.External? then [] else [e]
  }

  lemma {:induction false} ManagedMembers(services: seq<ServiceEntry>, e: ServiceEntry)
    ensures e in Managed(services) <==> e in services && !e.kind.External?
  {
    if services != [] {
      var last := |services| - 1;
      ManagedMembers(services[..last], e);
      assert services == services[..last] + [services[last]];
    }
  }

  /** Position of a name in the order in which the search finished the nodes. */
  ghost function Rank(order: seq<string>, n: string): nat
    requires n in order
  {
    if order[0] == n then 0 else 1 + Rank(order[1..], n)
  }

  lemma {:induction false} RankIsPosition(order: seq<string>, i: nat)
    requires Distinct(order) && i < |order|
    ensures Rank(order, order[i]) == i
  {
    if i > 0 {
      assert order[0] != order[i];
      assert order[1..][i - 1] == order[i];
      RankIsPosition(order[1..], i - 1);
    }
  }

  /** A loaded manifest can be started bottom-up: the rank falls along every dependency between its entries. */
  lemma LoadedDependenciesDescend(services: seq<ServiceEntry>, e: ServiceEntry, d: ServiceEntry)
    requires SearchVerdict(services).Acyclic?
    requires e in Managed(services) && d in Managed(services) && d.name in e.dependsOn
    ensures e.name in SearchVerdict(services).order && d.name in SearchVerdict(services).order
    ensures Rank(SearchVerdict(services).order, d.name) < Rank(SearchVerdict(services).order, e.name)
  {
    DependencyCheckIsExact(services);
    ManagedMembers(services, e);
    ManagedMembers(services, d);
    var order := SearchVerdict(services).order;
    NamesOf(services, e.name);
    NamesOf(services, d.name);
    var i :| 0 <= i < |order| && order[i] == e.name;
    assert DependsOn(services, order[i], d.name);
    var j :| 0 <= j < i && order[j] == d.name;
    RankIsPosition(order, i);
    RankIsPosition(order, j);
  }

  /** The filter at the end: the entries at the places of non-external ones, in their order. */
  method KeepManaged(services: seq<ServiceEntry>) returns (entries: seq<ServiceEntry>, ghost at: seq<nat>)
    ensures entries == Managed(services) && Picks(services, entries, at)
    ensures forall i :: 0 <= i < |services| ==> (i in at <==> !services[i].kind.External?)
  {
    entries, at := [], [];
    for i := 0 to |services|
      invariant entries == Managed(services[..i]) && Picks(services, entries, at) && Below(at, i)
      invariant forall j :: 0 <= j < i ==> (j in at <==> !services[j].kind.External?)
    {
      assert services[..i + 1][..i] == services[..i];
      if !services[i].kind.External? {
        PickOneMore(services, entries, at, i);
        entries, at := entries + [services[i]], at + [i];
      }
    }
    assert services[..|services|] == services;
  }

  /** The checking and filtering part of `load_manifest`, on a payload that passed the schema. */
  method LoadManifest(services: seq<ServiceEntry>) returns (r: Result<seq<ServiceEntry>, LoadError>, ghost at: seq<nat>)
    requires SchemaValid(services)
    ensures r.Ok? <==> !(AllNamed(services) && HasDuplicate(services)) && !exists path :: DependencyCycle(services, path)
    ensures r.Ok? ==> r.value == Managed(services) && SearchVerdict(services).Acyclic?
    ensures r.Ok? ==> Picks(services, r.value, at) && forall i :: 0 <= i < |services| ==> (i in at <==> !services[i].kind.External?)
    ensures r.Err? ==> (r.error.DuplicateComposeNames? <==> AllNamed(services) && HasDuplicate(services))
    ensures r.Err? && r.error.DuplicateComposeNames? ==> Reports(services, |services|, r.error.duplicates)
    ensures r.Err? && r.error.DependencyCycleAt? ==>
              DependencyCycle(services, r.error.path) && SearchVerdict(services) == Cyclic(r.error.path)
  {
    at := [];
    DependencyCheckIsExact(services);
    var duplicates := CheckUniqueComposeServiceName(services);
    DuplicateCheckIsExact(services, duplicates);
    if duplicates != map[] {
      return Err(DuplicateComposeNames(duplicates)), at;
    }
    var cycles, _ := CheckNoDependencyCycles(services);
    if cycles.Err? {
      return Err(DependencyCycleAt(cycles.error)), at;
    }
    var entries;
    entries, at := KeepManaged(services);
    return Ok(entries), at;
  }
}
