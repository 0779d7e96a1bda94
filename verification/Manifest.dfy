/** Services of the manifest and the dependency graph their `depends_on_services` lists span. */
module Manifest {
  import opened Prelude
  import opened DependencySearch
  import NameOrder

  datatype Kind = HttpService | Worker | Ui | Infra | Sidecar | External

  /** A schema-valid entry; only an external one may lack `compose_service_name`. */
  datatype ServiceEntry = ServiceEntry(
    name: string,
    kind: Kind,
    composeServiceName: Option<string>,
    dependsOn: seq<string>
  )

  ghost predicate SchemaValid(services: seq<ServiceEntry>) {
    forall i :: 0 <= i < |services| && services[i].composeServiceName.None? ==> services[i].kind.External?
  }

  ghost function Names(services: seq<ServiceEntry>): set<string> {
    set i | 0 <= i < |services| :: services[i].name
  }

  lemma {:induction false} ResidentPicksUpTo(deps: seq<string>, k: nat, names: set<string>) returns (at: seq<nat>)
    requires k <= |deps|
    ensures Picks(deps, Resident(deps[..k], names), at) && Below(at, k)
    ensures forall i :: 0 <= i < k ==> (i in at <==> deps[i] in names)
  {
    if k == 0 {
      at := [];
    } else {
      var i := k - 1;
      at := ResidentPicksUpTo(deps, i, names);
      assert deps[..k][..i] == deps[..i] && i !in at;
      if deps[i] in names {
        PickOneMore(deps, Resident(deps[..i], names), at, i);
        at := at + [i];
      }
    }
  }

  /** An adjacency list is in manifest order: the in-manifest dependencies of one entry keep their order and repetitions. */
  lemma ResidentPicks(deps: seq<string>, names: set<string>) returns (at: seq<nat>)
    ensures Picks(deps, Resident(deps, names), at) && forall i :: 0 <= i < |deps| ==> (i in at <==> deps[i] in names)
  {
    at := ResidentPicksUpTo(deps, |deps|, names);
    assert deps[..|deps|] == deps;
  }

  /** And the lists of entries of one name follow one another in manifest order. */
  lemma NeighboursFollow(services: seq<ServiceEntry>, e: ServiceEntry, names: set<string>, n: string)
    ensures Neighbours(services + [e], names, n) == Neighbours(services, names, n) + if e.name == n then Resident(e.dependsOn, names) else []
  {
    assert (services + [e])[..|services|] == services;
  }

  /** Some entry called `a` lists `b`. */
  ghost predicate Lists(services: seq<ServiceEntry>, a: string, b: string) {
    exists i :: 0 <= i < |services| && services[i].name == a && b in services[i].dependsOn
  }

  /** `a` lists `b`, and `b` is itself an entry; a name outside the manifest is no dependency here. */
  ghost predicate DependsOn(services: seq<ServiceEntry>, a: string, b: string) {
    b in Names(services) && Lists(services, a, b)
  }

  ghost predicate DependencyCycle(services: seq<ServiceEntry>, path: seq<string>) {
    && |path| >= 2
    && path[0] == path[|path| - 1]
    && forall i :: 0 <= i < |path| - 1 ==> DependsOn(services, path[i], path[i + 1])
  }

  /** The dependencies of `deps` that are entries, in order and with repetitions. */
  ghost function Resident(deps: seq<string>, names: set<string>): (r: seq<string>)
    ensures forall d :: d in r <==> d in deps && d in names
  {
    if deps == [] then []
    else
      var d := deps[|deps| - 1];
      Resident(deps[..|deps| - 1], names) + if d in names then [d] else []
  }

  /** What the entries called `n` contribute, in manifest order. */
  ghost function Neighbours(services: seq<ServiceEntry>, names: set<string>, n: string): seq<string> {
    if services == [] then []
    else
      var e := services[|services| - 1];
      Neighbours(services[..|services| - 1], names, n) + if e.name == n then Resident(e.dependsOn, names) else []
  }

  ghost function Graph(services: seq<ServiceEntry>): Adjacency {
    var names := Names(services);
    map n | n in names :: Neighbours(services, names, n)
  }

  ghost function EdgeCount(services: seq<ServiceEntry>, names: set<string>): nat {
    if services == [] then 0
    else EdgeCount(services[..|services| - 1], names) + |Resident(services[|services| - 1].dependsOn, names)|
  }

  lemma ListsByLast(services: seq<ServiceEntry>, a: string, b: string)
    requires services != []
    ensures var last := |services| - 1;
            Lists(services, a, b) <==> Lists(services[..last], a, b) || (services[last].name == a && b in services[last].dependsOn)
  {
    var last := |services| - 1;
    if Lists(services, a, b) {
      var i :| 0 <= i < |services| && services[i].name == a && b in services[i].dependsOn;
      if i < last { assert services[..last][i] == services[i]; }
    }
    if Lists(services[..last], a, b) {
      var i :| 0 <= i < last && services[..last][i].name == a && b in services[..last][i].dependsOn;
      assert services[i].name == a;
    }
  }

  lemma {:induction false} NeighboursContain(services: seq<ServiceEntry>, names: set<string>, a: string, b: string)
    ensures b in Neighbours(services, names, a) <==> b in names && Lists(services, a, b)
  {
    if services != [] {
      NeighboursContain(services[..|services| - 1], names, a, b);
      ListsByLast(services, a, b);
    }
  }

  lemma GraphIsDependsOn(services: seq<ServiceEntry>)
    ensures Closed(Graph(services))
    ensures forall a, b :: Edge(Graph(services), a, b) <==> DependsOn(services, a, b)
  {
    var names, g := Names(services), Graph(services);
    forall a, b ensures Edge(g, a, b) <==> DependsOn(services, a, b) {
      NeighboursContain(services, names, a, b);
    }
    forall n, d | n in g && d in g[n] ensures d in g { assert Edge(g, n, d); }
  }

  lemma CycleInGraph(services: seq<ServiceEntry>, path: seq<string>)
    ensures ClosedWalk(Graph(services), path) <==> DependencyCycle(services, path)
  {
    GraphIsDependsOn(services);
  }

  /** The verdict both checkers must reach. */
  ghost function SearchVerdict(services: seq<ServiceEntry>): Verdict {
    GraphIsDependsOn(services);
    Run(Graph(services), Start(NameOrder.Sorted(Names(services))))
  }

  /** Summing a node's neighbours over any duplicate-free listing of the nodes counts every edge once. */
  lemma {:induction false} DegreesCountEdges(services: seq<ServiceEntry>, names: set<string>, g: Adjacency, order: seq<string>)
    requires Distinct(order) && forall i :: 0 <= i < |services| ==> services[i].name in order
    requires g.Keys == (set n | n in order) && forall n :: n in g ==> g[n] == Neighbours(services, names, n)
    ensures Degrees(g, order) == EdgeCount(services, names)
  {
    if services == [] {
      DegreesZero(g, order);
    } else {
      var e, rest := services[|services| - 1], services[..|services| - 1];
      var g' := map n | n in g :: Neighbours(rest, names, n);
      assert forall i :: 0 <= i < |rest| ==> rest[i] == services[i];
      DegreesCountEdges(rest, names, g', order);
      assert e.name in order;
      DegreesGrow(g', g, order, e.name, |Resident(e.dependsOn, names)|);
    }
  }

  lemma {:induction false} DegreesZero(g: Adjacency, order: seq<string>)
    requires forall n :: n in g ==> g[n] == []
    ensures Degrees(g, order) == 0
  {
    if order != [] { DegreesZero(g, order[..|order| - 1]); }
  }

  lemma {:induction false} DegreesGrow(g: Adjacency, g': Adjacency, order: seq<string>, n: string, k: nat)
    requires Distinct(order) && g.Keys == g'.Keys && n in g
    requires forall m :: m in g ==> |g'[m]| == |g[m]| + if m == n then k else 0
    ensures Degrees(g', order) == Degrees(g, order) + if n in order then k else 0
  {
    if order != [] {
      var last := |order| - 1;
      DegreesGrow(g, g', order[..last], n, k);
      assert order == order[..last] + [order[last]];
    }
  }

  lemma {:induction false} NamesOf(services: seq<ServiceEntry>, n: string)
    ensures n in Names(services) <==> exists i :: 0 <= i < |services| && services[i].name == n
  {
  }

  /** The number of list entries equals the number of names once every name is listed once. */
  lemma {:induction false} ListingLength(order: seq<string>, names: set<string>)
    requires Distinct(order) && forall n :: n in names <==> n in order
    ensures |order| == |names|
  {
    if order == [] {
      assert names == {};
    } else {
      var last := |order| - 1;
      var n := order[last];
      forall m ensures m in names - {n} <==> m in order[..last] {
        if m in order[..last] { assert m in order; }
      }
      ListingLength(order[..last], names - {n});
      assert names == (names - {n}) + {n};
    }
  }

  /**
   The manifest's dependency check, stated without its search: it rejects exactly the manifests with a
   dependency cycle, a rejection names a genuine simple cycle, and an acceptance comes with a listing of the
   names in which every in-manifest dependency precedes its dependents, after exactly one pass of the inner
   loop per name and per in-manifest dependency.
   */
  lemma DependencyCheckIsExact(services: seq<ServiceEntry>)
    ensures SearchVerdict(services).Cyclic? <==> exists path :: DependencyCycle(services, path)
    ensures SearchVerdict(services).Cyclic? ==>
              var path := SearchVerdict(services).path;
              DependencyCycle(services, path) && Distinct(path[..|path| - 1])
    ensures SearchVerdict(services).Acyclic? ==>
              var v := SearchVerdict(services);
              && Distinct(v.order)
              && (forall n :: n in Names(services) <==> n in v.order)
              && (forall i, d :: 0 <= i < |v.order| && DependsOn(services, v.order[i], d) ==> d in v.order[..i])
              && v.ticks == |Names(services)| + EdgeCount(services, Names(services))
  {
    var names, g := Names(services), Graph(services);
    GraphIsDependsOn(services);
    SearchDecides(g, NameOrder.Sorted(names));
    forall path ensures ClosedWalk(g, path) <==> DependencyCycle(services, path) { CycleInGraph(services, path); }
    var v := SearchVerdict(services);
    if v.Acyclic? { PassesAreNodesPlusEdges(services, v); }
  }

  lemma PassesAreNodesPlusEdges(services: seq<ServiceEntry>, v: Verdict)
    requires v.Acyclic? && Topological(Graph(services), v.order) && v.ticks == |v.order| + Degrees(Graph(services), v.order)
    ensures v.ticks == |Names(services)| + EdgeCount(services, Names(services))
  {
    var names, g := Names(services), Graph(services);
    ListingLength(v.order, names);
    assert g.Keys == (set n | n in v.order);
    forall i | 0 <= i < |services| ensures services[i].name in v.order { NamesOf(services, services[i].name); }
    DegreesCountEdges(services, names, g, v.order);
  }
}
