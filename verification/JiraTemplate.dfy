/** The Jira template deploy: read each declared entity, compare, and write only what differs. */
module JiraTemplate {
  import opened Prelude

  /** A JSON value as the template or the client spells it. */
  datatype Json =
    | Null | Bool(b: bool) | Int(i: int) | Float(r: real) | Text(s: string) | List(items: seq<Json>) | Object(members: map<string, Json>)

  /** What it means to a comparison: true and false are the numbers 1 and 0, and 1.0 is 1. */
  datatype Value = Nothing | Number(n: real) | Word(s: string) | Sequence(items: seq<Value>) | Record(members: map<string, Value>)

  function NumberOf(j: Json): Option<real> {
    match j
    case Bool(b) => Some(if b then 1.0 else 0.0)
    case Int(i) => Some(i as real)
    case Float(r) => Some(r)
    case _ => None
  }

  /** Python's `==`, number by value, list by element, object by key. */
  predicate Equal(a: Json, b: Json) {
    match (a, b)
    case (Null, Null) => true
    case (Text(s), Text(t)) => s == t
    case (List(s), List(t)) => |s| == |t| && forall i :: 0 <= i < |s| ==> Equal(s[i], t[i])
    case (Object(m), Object(n)) => m.Keys == n.Keys && forall k :: k in m && k in n ==> Equal(m[k], n[k])
    case (_, _) => NumberOf(a).Some? && NumberOf(a) == NumberOf(b)
  }

  /** The comparison kind by kind: numbers and truth values by value, texts by their characters, and nothing across. */
  lemma EqualByKind(i: int, j: int, r: real, q: real, b: bool, c: bool, s: string, t: string)
    ensures Equal(Int(i), Int(j)) <==> i == j
    ensures Equal(Int(i), Float(r)) <==> i as real == r
    ensures Equal(Float(r), Int(i)) <==> r == i as real
    ensures Equal(Float(r), Float(q)) <==> r == q
    ensures Equal(Bool(b), Int(i)) <==> i == if b then 1 else 0
    ensures Equal(Int(i), Bool(b)) <==> i == if b then 1 else 0
    ensures Equal(Bool(b), Float(r)) <==> r == if b then 1.0 else 0.0
    ensures Equal(Float(r), Bool(b)) <==> r == if b then 1.0 else 0.0
    ensures Equal(Bool(b), Bool(c)) <==> b == c
    ensures Equal(Text(s), Text(t)) <==> s == t
    ensures Equal(Null, Null)
  {
  }

  /** The kinds a comparison tells apart: null, numbers and truth values, texts, lists, objects. */
  lemma EqualKeepsKinds(a: Json, b: Json)
    requires Equal(a, b)
    ensures (a.Null? <==> b.Null?) && (a.Text? <==> b.Text?) && (a.List? <==> b.List?) && (a.Object? <==> b.Object?)
    ensures a.List? ==> |a.items| == |b.items| && forall i :: 0 <= i < |a.items| ==> Equal(a.items[i], b.items[i])
    ensures a.Object? ==> a.members.Keys == b.members.Keys && forall k :: k in a.members ==> Equal(a.members[k], b.members[k])
  {
  }

  ghost function Meaning(j: Json): Value {
    match j
    case Null => Nothing
    case Bool(_) => Number(NumberOf(j).value)
    case Int(_) => Number(NumberOf(j).value)
    case Float(_) => Number(NumberOf(j).value)
    case Text(s) => Word(s)
    case List(items) => Sequence(seq(|items|, i requires 0 <= i < |items| => Meaning(items[i])))
    case Object(members) => Record(map k | k in members :: Meaning(members[k]))
  }

  /** The comparison sees exactly the meaning. */
  lemma {:induction false} EqualMeansTheSame(a: Json, b: Json)
    ensures Equal(a, b) <==> Meaning(a) == Meaning(b)
  {
    match (a, b)
    case (List(s), List(t)) =>
      forall i | 0 <= i < |s| && |s| == |t| ensures Equal(s[i], t[i]) <==> Meaning(s[i]) == Meaning(t[i]) {
        EqualMeansTheSame(s[i], t[i]);
      }
      if Meaning(a) == Meaning(b) {
        forall i | 0 <= i < |s| ensures Equal(s[i], t[i]) {
          assert Meaning(a).items[i] == Meaning(b).items[i];
        }
      }
    case (Object(m), Object(n)) =>
      forall k | k in m && k in n ensures Equal(m[k], n[k]) <==> Meaning(m[k]) == Meaning(n[k]) {
        EqualMeansTheSame(m[k], n[k]);
      }
      if Meaning(a) == Meaning(b) {
        assert Meaning(a).members.Keys == m.Keys && Meaning(b).members.Keys == n.Keys;
        forall k | k in m && k in n ensures Equal(m[k], n[k]) {
          assert Meaning(a).members[k] == Meaning(b).members[k];
        }
      }
    case (_, _) =>
  }

  /** An entity as it is spelled, and what it means; the name it is stored under is one of its members. */
  type Spelling = map<string, Json>

  type Payload = map<string, Value>

  ghost function Meant(p: Spelling): Payload {
    map k | k in p :: Meaning(p[k])
  }

  type Store = map<string, Payload>

  ghost predicate Named(p: Payload) {
    "name" in p && p["name"].Word?
  }

  function Name(p: Payload): string
    requires Named(p)
  {
    p["name"].s
  }

  datatype Template = Template(issueType: Payload, fields: seq<Payload>, screenScheme: Payload)

  ghost predicate WellFormed(t: Template) {
    Named(t.issueType) && AllNamed(t.fields) && Named(t.screenScheme)
  }

  ghost predicate AllNamed(fields: seq<Payload>) {
    forall i :: 0 <= i < |fields| ==> Named(fields[i])
  }

  datatype Mutation = Create(name: string, payload: Payload) | Update(name: string, payload: Payload)

  // ---- reference: what a deploy leaves behind and which calls it makes ---------------

  /** Absent, or present with another payload. */
  ghost predicate Drifted(store: Store, p: Payload)
    requires Named(p)
  {
    !(Name(p) in store && store[Name(p)] == p)
  }

  ghost function CallFor(store: Store, p: Payload): Mutation
    requires Named(p)
  {
    if Name(p) in store then Update(Name(p), p) else Create(Name(p), p)
  }

  /** The store with the declared entities written over it, later ones last. */
  ghost function Overlay(store: Store, fields: seq<Payload>): Store
    requires AllNamed(fields)
  {
    if fields == [] then store
    else
      var last := |fields| - 1;
      Overlay(store, fields[..last])[Name(fields[last]) := fields[last]]
  }

  /** The mutating calls made on the way, in order. */
  ghost function Calls(store: Store, fields: seq<Payload>): seq<Mutation>
    requires AllNamed(fields)
  {
    if fields == [] then []
    else
      var last := |fields| - 1;
      var reached := Overlay(store, fields[..last]);
      Calls(store, fields[..last]) + if Drifted(reached, fields[last]) then [CallFor(reached, fields[last])] else []
  }

  /** The declared entities that differ from the store as it is now. */
  ghost function DriftIn(store: Store, fields: seq<Payload>): seq<Mutation>
    requires AllNamed(fields)
  {
    if fields == [] then []
    else
      var last := |fields| - 1;
      DriftIn(store, fields[..last]) + if Drifted(store, fields[last]) then [CallFor(store, fields[last])] else []
  }

  /** The calls belong to the declared entities at the places `at`, in order; those are exactly the ones absent or different. */
  ghost predicate CallsAt(calls: seq<Mutation>, store: Store, fields: seq<Payload>, at: seq<nat>)
    requires AllNamed(fields)
  {
    && |calls| == |at| && Ascending(at, |fields|)
    && (forall k :: 0 <= k < |at| ==> Answers(calls[k], store, fields[at[k]]))
    && (forall i :: 0 <= i < |fields| ==> (i in at <==> !(Name(fields[i]) in store && store[Name(fields[i])] == fields[i])))
  }

  /** A creation of what is absent, an update of what is there, with the whole declared payload. */
  ghost predicate Answers(call: Mutation, store: Store, p: Payload)
    requires Named(p)
  {
    match call
    case Create(name, payload) => name == Name(p) && payload == p && name !in store
    case Update(name, payload) => name == Name(p) && payload == p && name in store && store[name] != p
  }

  ghost predicate OneCallEach(calls: seq<Mutation>, store: Store, fields: seq<Payload>)
    requires AllNamed(fields)
  {
    exists at: seq<nat> :: CallsAt(calls, store, fields, at)
  }

  lemma CallOneMore(calls: seq<Mutation>, store: Store, fields: seq<Payload>, p: Payload, at: seq<nat>)
    requires AllNamed(fields) && Named(p) && CallsAt(calls, store, fields, at) && Drifted(store, p)
    ensures CallsAt(calls + [CallFor(store, p)], store, fields + [p], at + [|fields|])
  {
    var more, longer := at + [|fields|], fields + [p];
    var after := calls + [CallFor(store, p)];
    assert Ascending(more, |longer|);
    forall k | 0 <= k < |more| ensures Answers(after[k], store, longer[more[k]]) {
      if k < |at| { assert more[k] == at[k] && after[k] == calls[k] && longer[at[k]] == fields[at[k]]; }
    }
    forall i | 0 <= i < |longer| ensures i in more <==> !(Name(longer[i]) in store && store[Name(longer[i])] == longer[i]) {
      if i < |fields| { assert longer[i] == fields[i]; }
    }
  }

  lemma CallSkips(calls: seq<Mutation>, store: Store, fields: seq<Payload>, p: Payload, at: seq<nat>)
    requires AllNamed(fields) && Named(p) && CallsAt(calls, store, fields, at) && !Drifted(store, p)
    ensures CallsAt(calls, store, fields + [p], at)
  {
    var longer := fields + [p];
    assert |fields| !in at;
    forall i | 0 <= i < |longer| ensures i in at <==> !(Name(longer[i]) in store && store[Name(longer[i])] == longer[i]) {
      if i < |fields| { assert longer[i] == fields[i]; }
    }
  }

  lemma OneCallMore(calls: seq<Mutation>, store: Store, fields: seq<Payload>, p: Payload)
    requires AllNamed(fields) && Named(p) && OneCallEach(calls, store, fields)
    ensures OneCallEach(calls + if Drifted(store, p) then [CallFor(store, p)] else [], store, fields + [p])
  {
    var at: seq<nat> :| CallsAt(calls, store, fields, at);
    if Drifted(store, p) {
      CallOneMore(calls, store, fields, p, at);
    } else {
      CallSkips(calls, store, fields, p, at);
      assert calls + [] == calls;
    }
  }

  ghost predicate DriftAnswered(store: Store, fields: seq<Payload>) {
    AllNamed(fields) && OneCallEach(DriftIn(store, fields), store, fields)
  }

  lemma NothingAnswered(store: Store)
    ensures DriftAnswered(store, [])
  {
    assert CallsAt([], store, [], []);
  }

  lemma OneMoreAnswered(store: Store, fields: seq<Payload>, p: Payload)
    requires DriftAnswered(store, fields) && Named(p)
    ensures DriftAnswered(store, fields + [p])
  {
    var longer := fields + [p];
    OneCallMore(DriftIn(store, fields), store, fields, p);
    assert longer[..|fields|] == fields && longer[|longer| - 1] == p;
  }

  /** The drift is one call for each declared entity that is absent or different, in the order of declaration. */
  lemma {:induction false} DriftIsOneCallEach(store: Store, fields: seq<Payload>)
    requires AllNamed(fields)
    ensures DriftAnswered(store, fields)
  {
    if fields == [] {
      NothingAnswered(store);
    } else {
      var init, p := fields[..|fields| - 1], fields[|fields| - 1];
      DriftIsOneCallEach(store, init);
      OneMoreAnswered(store, init, p);
      assert fields == init + [p];
    }
  }

  ghost predicate DistinctNames(fields: seq<Payload>)
    requires AllNamed(fields)
  {
    forall i, j :: 0 <= i < j < |fields| ==> Name(fields[i]) != Name(fields[j])
  }

  /** Fields declared under one name agree. */
  ghost predicate Agree(fields: seq<Payload>)
    requires AllNamed(fields)
  {
    forall i, j :: 0 <= i < |fields| && 0 <= j < |fields| && Name(fields[i]) == Name(fields[j]) ==> fields[i] == fields[j]
  }

  ghost predicate Declares(fields: seq<Payload>, n: string)
    requires AllNamed(fields)
  {
    exists i :: 0 <= i < |fields| && Name(fields[i]) == n
  }

  /** An undeclared entity keeps its payload. */
  lemma {:induction false} OverlayUndeclared(store: Store, fields: seq<Payload>, n: string)
    requires AllNamed(fields) && !Declares(fields, n)
    ensures n in Overlay(store, fields) <==> n in store
    ensures n in store ==> Overlay(store, fields)[n] == store[n]
  {
    if fields != [] {
      var last := |fields| - 1;
      assert forall i :: 0 <= i < last ==> fields[..last][i] == fields[i];
      OverlayUndeclared(store, fields[..last], n);
    }
  }

  /** A declared entity ends with the payload declared for it last. */
  lemma {:induction false} OverlayDeclared(store: Store, fields: seq<Payload>, i: nat)
    requires AllNamed(fields) && i < |fields|
    requires forall j :: i < j < |fields| ==> Name(fields[j]) != Name(fields[i])
    ensures Name(fields[i]) in Overlay(store, fields) && Overlay(store, fields)[Name(fields[i])] == fields[i]
  {
    var last := |fields| - 1;
    if i < last {
      assert fields[..last][i] == fields[i];
      OverlayDeclared(store, fields[..last], i);
    }
  }

  /** A run makes no call exactly when every declared field is already there as declared. */
  lemma {:induction false} NoCallMeansInPlace(store: Store, fields: seq<Payload>)
    requires AllNamed(fields)
    ensures Calls(store, fields) == [] <==> forall i :: 0 <= i < |fields| ==> !Drifted(store, fields[i])
    ensures Calls(store, fields) == [] ==> Overlay(store, fields) == store
  {
    if fields != [] {
      var last := |fields| - 1;
      var rest := fields[..last];
      NoCallMeansInPlace(store, rest);
      assert forall i :: 0 <= i < last ==> rest[i] == fields[i];
      assert Calls(store, fields) == [] ==> Calls(store, rest) == [] && Overlay(store, rest) == store && !Drifted(store, fields[last]);
    }
  }

  /** After a deploy every field is in place exactly when fields of one name agree. */
  lemma InPlaceMeansAgree(store: Store, fields: seq<Payload>)
    requires AllNamed(fields)
    ensures (forall i :: 0 <= i < |fields| ==> !Drifted(Overlay(store, fields), fields[i])) <==> Agree(fields)
  {
  }

  /** With distinct names a run touches each drifted field once, with the call its present state asks for. */
  lemma {:induction false} CallsAreDrift(store: Store, fields: seq<Payload>)
    requires AllNamed(fields) && DistinctNames(fields)
    ensures Calls(store, fields) == DriftIn(store, fields)
  {
    if fields != [] {
      var last := |fields| - 1;
      var rest := fields[..last];
      assert forall i :: 0 <= i < last ==> rest[i] == fields[i];
      CallsAreDrift(store, rest);
      OverlayUndeclared(store, rest, Name(fields[last]));
    }
  }

  // ---- the whole deploy ----------------------------------------------------------------

  datatype Live = Live(issueTypes: Store, fields: Store, screenSchemes: Store)

  ghost function Deployed(live: Live, t: Template): Live
    requires WellFormed(t)
  {
    Live(Overlay(live.issueTypes, [t.issueType]), Overlay(live.fields, t.fields), Overlay(live.screenSchemes, [t.screenScheme]))
  }

  ghost function Mutations(live: Live, t: Template): seq<Mutation>
    requires WellFormed(t)
  {
    Calls(live.issueTypes, [t.issueType]) + Calls(live.fields, t.fields) + Calls(live.screenSchemes, [t.screenScheme])
  }

  /**
   The idempotency contract, exactly: the second of two deploys of one template makes no call if and only if
   the fields declared under one name agree.
   */
  lemma SecondDeployIsNoOp(live: Live, t: Template)
    requires WellFormed(t)
    ensures Mutations(Deployed(live, t), t) == [] <==> Agree(t.fields)
    ensures Mutations(Deployed(live, t), t) == [] ==> Deployed(Deployed(live, t), t) == Deployed(live, t)
  {
    var after := Deployed(live, t);
    NoCallMeansInPlace(after.fields, t.fields);
    InPlaceMeansAgree(live.fields, t.fields);
    SingleStaysPut(live.issueTypes, t.issueType);
    SingleStaysPut(live.screenSchemes, t.screenScheme);
  }

  lemma SingleStaysPut(store: Store, p: Payload)
    requires Named(p)
    ensures Calls(Overlay(store, [p]), [p]) == [] && Overlay(Overlay(store, [p]), [p]) == Overlay(store, [p])
  {
  }

  /** Two fields of one name and different payloads keep every run busy. */
  lemma DisagreeingFieldsNeverSettle()
    ensures exists t: Template :: WellFormed(t) && forall live :: Mutations(Deployed(live, t), t) != []
  {
    var a: Payload := map["name" := Word("f"), "type" := Word("a")];
    var b: Payload := map["name" := Word("f"), "type" := Word("b")];
    assert a["type"] != b["type"];
    var t := Template(a, [a, b], a);
    assert WellFormed(t) && t.fields[0] != t.fields[1] && Name(t.fields[0]) == Name(t.fields[1]);
    forall live ensures Mutations(Deployed(live, t), t) != [] { SecondDeployIsNoOp(live, t); }
  }

  /**
   Drift heals in one run: from any live state, whatever an operator did to it, a deploy of a template with
   distinct field names makes exactly one call per drifted entity, leaves every undeclared entity alone, and
   the run after it makes none.
   */
  lemma DriftHealsInOneRun(live: Live, t: Template)
    requires WellFormed(t) && DistinctNames(t.fields)
    ensures Mutations(live, t) ==
            DriftIn(live.issueTypes, [t.issueType]) + DriftIn(live.fields, t.fields) + DriftIn(live.screenSchemes, [t.screenScheme])
    ensures OneCallEach(DriftIn(live.issueTypes, [t.issueType]), live.issueTypes, [t.issueType])
    ensures OneCallEach(DriftIn(live.fields, t.fields), live.fields, t.fields)
    ensures OneCallEach(DriftIn(live.screenSchemes, [t.screenScheme]), live.screenSchemes, [t.screenScheme])
    ensures Healed(live.issueTypes, Deployed(live, t).issueTypes, [t.issueType])
    ensures Healed(live.fields, Deployed(live, t).fields, t.fields)
    ensures Healed(live.screenSchemes, Deployed(live, t).screenSchemes, [t.screenScheme])
    ensures Mutations(Deployed(live, t), t) == []
  {
    DriftIsOneCallEach(live.issueTypes, [t.issueType]);
    DriftIsOneCallEach(live.fields, t.fields);
    DriftIsOneCallEach(live.screenSchemes, [t.screenScheme]);
    CallsAreDrift(live.issueTypes, [t.issueType]);
    CallsAreDrift(live.fields, t.fields);
    CallsAreDrift(live.screenSchemes, [t.screenScheme]);
    OverlayHeals(live.issueTypes, [t.issueType]);
    OverlayHeals(live.fields, t.fields);
    OverlayHeals(live.screenSchemes, [t.screenScheme]);
    SecondDeployIsNoOp(live, t);
  }

  /** Every declared entity is there as declared, every other one as it was. */
  ghost predicate Healed(before: Store, after: Store, declared: seq<Payload>)
    requires AllNamed(declared)
  {
    && (forall i :: 0 <= i < |declared| ==> !Drifted(after, declared[i]))
    && (forall n :: !Declares(declared, n) ==> (n in after <==> n in before) && (n in before ==> after[n] == before[n]))
  }

  lemma OverlayHeals(store: Store, declared: seq<Payload>)
    requires AllNamed(declared) && DistinctNames(declared)
    ensures Healed(store, Overlay(store, declared), declared)
  {
    var after := Overlay(store, declared);
    forall n | !Declares(declared, n)
      ensures (n in after <==> n in store) && (n in store ==> after[n] == store[n])
    {
      OverlayUndeclared(store, declared, n);
    }
    forall i | 0 <= i < |declared| ensures !Drifted(after, declared[i]) {
      OverlayDeclared(store, declared, i);
    }
  }

  // ---- spellings ---------------------------------------------------------------------------

  predicate NameSpelled(p: Spelling) {
    "name" in p && p["name"].Text?
  }

  ghost predicate AllSpelled(fields: seq<Spelling>) {
    forall i :: 0 <= i < |fields| ==> NameSpelled(fields[i])
  }

  ghost function MeantAll(fields: seq<Spelling>): (r: seq<Payload>)
    ensures |r| == |fields| && (AllSpelled(fields) ==> AllNamed(r))
  {
    seq(|fields|, i requires 0 <= i < |fields| => Meant(fields[i]))
  }

  ghost function Meanings(entities: map<string, Spelling>): Store {
    map n | n in entities :: Meant(entities[n])
  }

  /** `_entity_unchanged`. */
  predicate EntityUnchanged(current: Spelling, desired: Spelling) {
    Equal(Object(current), Object(desired))
  }

  /** The script finds nothing to change exactly when the two spellings mean the same. */
  lemma UnchangedMeansTheSame(current: Spelling, desired: Spelling)
    ensures EntityUnchanged(current, desired) <==> Meant(current) == Meant(desired)
  {
    EqualMeansTheSame(Object(current), Object(desired));
    assert Meaning(Object(current)) == Record(Meant(current)) && Meaning(Object(desired)) == Record(Meant(desired));
  }

  /** Two payloads that agree but for one member are found unchanged exactly when the comparison cannot tell its values apart. */
  lemma OneMemberDecides(p: Spelling, member: string, a: Json, b: Json)
    ensures EntityUnchanged(p[member := a], p[member := b]) <==> Equal(a, b)
  {
    EqualMeansTheSame(a, b);
    UnchangedMeansTheSame(p[member := a], p[member := b]);
    var m, n := Meant(p[member := a]), Meant(p[member := b]);
    assert m[member] == Meaning(a) && n[member] == Meaning(b) && m.Keys == n.Keys;
    assert forall k :: k in p && k != member ==> m[k] == Meaning(p[k]) && n[k] == Meaning(p[k]);
    if Equal(a, b) { assert m == n; }
  }

  /** So a changed number is always noticed, and a missing or additional member too. */
  lemma ChangedNumberIsSeen(p: Spelling, member: string, i: int, j: int, q: Spelling)
    ensures EntityUnchanged(p[member := Int(i)], p[member := Int(j)]) <==> i == j
    ensures EntityUnchanged(p, q) ==> p.Keys == q.Keys
  {
    OneMemberDecides(p, member, Int(i), Int(j));
  }

  /** Two fields that differ only in spelling one member as `true` and as 1 agree. */
  lemma TrueAndOneAgree(p: Spelling, member: string)
    requires NameSpelled(p) && member != "name"
    ensures AllSpelled([p[member := Bool(true)], p[member := Int(1)]])
    ensures Agree(MeantAll([p[member := Bool(true)], p[member := Int(1)]]))
  {
    var fields := [p[member := Bool(true)], p[member := Int(1)]];
    assert Meant(fields[0]) == Meant(fields[1]);
  }

  // ---- the client and the script ----------------------------------------------------------

  /** One of the client's three keyed stores, with the meaning of the mutating calls it received. */
  class EntityStore {
    var entities: map<string, Spelling>
    ghost var mutations: seq<Mutation>

    ghost function Value(): Store
      reads this
    {
      Meanings(entities)
    }

    function Get(name: string): Option<Spelling>
      reads this
    {
      if name in entities then Some(entities[name]) else None
    }

    method CreateEntity(name: string, payload: Spelling)
      modifies this
      ensures entities == old(entities)[name := payload] && mutations == old(mutations) + [Create(name, Meant(payload))]
    {
      entities, mutations := entities[name := payload], mutations + [Create(name, Meant(payload))];
    }

    method UpdateEntity(name: string, payload: Spelling)
      modifies this
      ensures entities == old(entities)[name := payload] && mutations == old(mutations) + [Update(name, Meant(payload))]
    {
      entities, mutations := entities[name := payload], mutations + [Update(name, Meant(payload))];
    }
  }

  /** Every entity under another name is spelled as before. */
  ghost predicate OthersKept(before: map<string, Spelling>, after: map<string, Spelling>, names: set<string>) {
    forall n :: n !in names ==> (n in after <==> n in before) && (n in before ==> after[n] == before[n])
  }

  /** The read, compare, write step that all three parts of the deploy share. */
  method DeployEntity(store: EntityStore, desired: Spelling) returns (changes: nat)
    requires NameSpelled(desired)
    modifies store
    ensures store.Value() == Overlay(old(store.Value()), [Meant(desired)])
    ensures store.mutations == old(store.mutations) + Calls(old(store.Value()), [Meant(desired)])
    ensures changes == |Calls(old(store.Value()), [Meant(desired)])|
    ensures var name, before := desired["name"].s, old(store.entities);
            && store.entities == (if name in before && EntityUnchanged(before[name], desired) then before else before[name := desired])
            && store.mutations == old(store.mutations) +
                 (if name !in before then [Create(name, Meant(desired))]
                  else if EntityUnchanged(before[name], desired) then [] else [Update(name, Meant(desired))])
            && changes == if name in before && EntityUnchanged(before[name], desired) then 0 else 1
    ensures OthersKept(old(store.entities), store.entities, {desired["name"].s})
  {
    ghost var before, p := store.Value(), Meant(desired);
    SingleStep(before, p);
    var name := desired["name"].s;
    var current := store.Get(name);
    if current.None? {
      store.CreateEntity(name, desired);
      return 1;
    }
    UnchangedMeansTheSame(current.value, desired);
    if EntityUnchanged(current.value, desired) {
      return 0;
    }
    store.UpdateEntity(name, desired);
    return 1;
  }

  lemma SingleStep(store: Store, p: Payload)
    requires Named(p)
    ensures Overlay(store, [p]) == store[Name(p) := p]
    ensures Calls(store, [p]) == if Drifted(store, p) then [CallFor(store, p)] else []
  {
    assert [p][..0] == [] && Overlay(store, [p][..0]) == store;
  }

  /** One field more is one deploy step from the store reached so far. */
  lemma OneMore(store: Store, fields: seq<Payload>, i: nat)
    requires AllNamed(fields) && i < |fields|
    ensures var reached := Overlay(store, fields[..i]);
            && Overlay(store, fields[..i + 1]) == Overlay(reached, [fields[i]])
            && Calls(store, fields[..i + 1]) == Calls(store, fields[..i]) + Calls(reached, [fields[i]])
  {
    assert fields[..i + 1][..i] == fields[..i];
    SingleStep(Overlay(store, fields[..i]), fields[i]);
  }

  ghost function NamesOf(fields: seq<Spelling>): set<string>
    requires AllSpelled(fields)
  {
    set i | 0 <= i < |fields| :: fields[i]["name"].s
  }

  method DeployFields(store: EntityStore, desired: seq<Spelling>) returns (mutations: nat)
    requires AllSpelled(desired)
    modifies store
    ensures store.Value() == Overlay(old(store.Value()), MeantAll(desired))
    ensures store.mutations == old(store.mutations) + Calls(old(store.Value()), MeantAll(desired))
    ensures mutations == |Calls(old(store.Value()), MeantAll(desired))|
    ensures OthersKept(old(store.entities), store.entities, NamesOf(desired))
  {
    ghost var before, all := store.Value(), MeantAll(desired);
    mutations := 0;
    for i := 0 to |desired|
      invariant store.Value() == Overlay(before, all[..i])
      invariant store.mutations == old(store.mutations) + Calls(before, all[..i])
      invariant mutations == |Calls(before, all[..i])|
      invariant OthersKept(old(store.entities), store.entities, NamesOf(desired))
    {
      OneMore(before, all, i);
      var changes := DeployEntity(store, desired[i]);
      assert desired[i]["name"].s in NamesOf(desired);
      mutations := mutations + changes;
    }
    assert all[..|desired|] == all;
  }

  datatype DeployResult = DeployResult(issueTypeChanges: nat, fieldChanges: nat, screenSchemeChanges: nat) {
    function TotalMutations(): nat {
      issueTypeChanges + fieldChanges + screenSchemeChanges
    }
  }

  /** `deploy` on the three stores of a client. */
  method Deploy(issueTypes: EntityStore, fields: EntityStore, screenSchemes: EntityStore,
                issueType: Spelling, declared: seq<Spelling>, screenScheme: Spelling) returns (r: DeployResult)
    requires NameSpelled(issueType) && AllSpelled(declared) && NameSpelled(screenScheme)
    requires issueTypes != fields && fields != screenSchemes && issueTypes != screenSchemes
    modifies issueTypes, fields, screenSchemes
    ensures var live := Live(old(issueTypes.Value()), old(fields.Value()), old(screenSchemes.Value()));
            var t := Template(Meant(issueType), MeantAll(declared), Meant(screenScheme));
            && Live(issueTypes.Value(), fields.Value(), screenSchemes.Value()) == Deployed(live, t)
            && r.TotalMutations() == |Mutations(live, t)|
            && r.issueTypeChanges == |Calls(live.issueTypes, [t.issueType])| && r.fieldChanges == |Calls(live.fields, t.fields)|
            && r.screenSchemeChanges == |Calls(live.screenSchemes, [t.screenScheme])|
            && issueTypes.mutations == old(issueTypes.mutations) + Calls(live.issueTypes, [t.issueType])
            && fields.mutations == old(fields.mutations) + Calls(live.fields, t.fields)
            && screenSchemes.mutations == old(screenSchemes.mutations) + Calls(live.screenSchemes, [t.screenScheme])
    ensures OthersKept(old(issueTypes.entities), issueTypes.entities, {issueType["name"].s})
    ensures OthersKept(old(fields.entities), fields.entities, NamesOf(declared))
    ensures OthersKept(old(screenSchemes.entities), screenSchemes.entities, {screenScheme["name"].s})
  {
    var issueTypeChanges := DeployEntity(issueTypes, issueType);
    var fieldChanges := DeployFields(fields, declared);
    var screenSchemeChanges := DeployEntity(screenSchemes, screenScheme);
    r := DeployResult(issueTypeChanges, fieldChanges, screenSchemeChanges);
  }
}
