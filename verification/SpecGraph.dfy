/**
 The current spec as the classifier consults it, and the dependencies of a
 component: its own uses, and all of every module its module requires.
 */
module SpecGraph {
  import opened Results
  import opened Order
  import opened Graph

  datatype Component = Component(id: string, name: string, uses: seq<string>)
  datatype DataFlow = DataFlow(id: string, name: string, uses: seq<string>)
  datatype TestSection = TestSection(id: string, name: string, describes: seq<string>)

  datatype ModuleSpec = ModuleSpec(components: seq<Component>, dataFlows: seq<DataFlow>, testSections: seq<TestSection>)

  datatype ModuleEntry = ModuleEntry(id: string, name: string, requiresModule: seq<string>, spec: ModuleSpec)

  datatype Specs = Specs(byName: map<string, ModuleEntry>, byId: map<string, ModuleEntry>, planRelevant: seq<string>)

  function FindComponent(cs: seq<Component>, id: string): (r: Option<Component>)
    ensures r.Some? ==> r.value in cs && r.value.id == id
    ensures r.None? ==> forall x :: x in cs ==> x.id != id
  {
    if cs == [] then None else if cs[0].id == id then Some(cs[0]) else FindComponent(cs[1..], id)
  }

  function FindDataFlow(fs: seq<DataFlow>, id: string): (r: Option<DataFlow>)
    ensures r.Some? ==> r.value in fs && r.value.id == id
    ensures r.None? ==> forall x :: x in fs ==> x.id != id
  {
    if fs == [] then None else if fs[0].id == id then Some(fs[0]) else FindDataFlow(fs[1..], id)
  }

  function FindTestSection(ts: seq<TestSection>, id: string): (r: Option<TestSection>)
    ensures r.Some? ==> r.value in ts && r.value.id == id
    ensures r.None? ==> forall x :: x in ts ==> x.id != id
  {
    if ts == [] then None else if ts[0].id == id then Some(ts[0]) else FindTestSection(ts[1..], id)
  }

  // ---- what a component depends on ----

  function RequiresGraph(graph: Specs): Adjacency {
    map id | id in graph.byId :: graph.byId[id].requiresModule
  }

  /** A chain of requirements that starts at the module's own and never comes back to it. */
  ghost predicate Chain(graph: Specs, own: ModuleEntry, p: seq<string>) {
    p != [] && p[0] in own.requiresModule && own.id !in p && Walk(RequiresGraph(graph), p)
  }

  ghost predicate Required(graph: Specs, own: ModuleEntry, m: string) {
    exists p :: Chain(graph, own, p) && p[|p| - 1] == m
  }

  /** x is a component the node uses, itself aside, or any component of a required module. */
  ghost predicate IsDep(graph: Specs, own: ModuleEntry, node: string, x: string) {
    (FindComponent(own.spec.components, node).Some? && x in FindComponent(own.spec.components, node).value.uses && x != node)
    || (exists m :: Required(graph, own, m) && HasComponent(graph, m, x))
  }

  predicate HasComponent(graph: Specs, m: string, x: string) {
    m in graph.byId && exists c :: c in graph.byId[m].spec.components && c.id == x
  }

  lemma ChainExtends(graph: Specs, own: ModuleEntry, m: string, r: string)
    requires Required(graph, own, m) && m in graph.byId && r in graph.byId[m].requiresModule && r != own.id
    ensures Required(graph, own, r)
  {
    var p :| Chain(graph, own, p) && p[|p| - 1] == m;
    var q := p + [r];
    forall i | 0 <= i < |q| - 1
      ensures Step(RequiresGraph(graph), q, i)
    {
      assert i < |p| - 1 ==> Step(RequiresGraph(graph), p, i);
    }
    assert Chain(graph, own, q) && q[|q| - 1] == r;
  }

  lemma ChainStarts(graph: Specs, own: ModuleEntry, r: string)
    requires r in own.requiresModule && r != own.id
    ensures Required(graph, own, r)
  {
    assert Chain(graph, own, [r]);
  }

  /** The modules visited so far are required, and what they lead to is visited or queued. */
  ghost predicate Explored(graph: Specs, own: ModuleEntry, visited: set<string>, queue: seq<string>) {
    && own.id in visited
    && (forall m :: m in visited && m != own.id ==> Required(graph, own, m))
    && (forall r :: r in queue ==> r == own.id || Required(graph, own, r))
    && (forall r :: r in own.requiresModule ==> r in visited || r in queue)
    && (forall m, r :: m in visited && m != own.id && m in graph.byId && r in graph.byId[m].requiresModule ==> r in visited || r in queue)
  }

  /** Once the queue is empty, everything required has been visited. */
  lemma {:induction false} ChainVisited(graph: Specs, own: ModuleEntry, visited: set<string>, p: seq<string>)
    requires Explored(graph, own, visited, []) && Chain(graph, own, p)
    ensures p[|p| - 1] in visited
  {
    if |p| > 1 {
      var init := p[..|p| - 1];
      forall i | 0 <= i < |init| - 1
        ensures Step(RequiresGraph(graph), init, i)
      {
        assert Step(RequiresGraph(graph), p, i);
      }
      ChainVisited(graph, own, visited, init);
      assert Step(RequiresGraph(graph), p, |p| - 2);
      assert init[|init| - 1] in p && p[|p| - 1] in p;
    }
  }

  lemma VisitedExactly(graph: Specs, own: ModuleEntry, visited: set<string>)
    requires Explored(graph, own, visited, [])
    ensures forall m :: Required(graph, own, m) <==> m in visited && m != own.id
  {
    forall m | Required(graph, own, m)
      ensures m in visited && m != own.id
    {
      var p :| Chain(graph, own, p) && p[|p| - 1] == m;
      ChainVisited(graph, own, visited, p);
      assert p[|p| - 1] in p;
    }
  }

  lemma DropVisited(graph: Specs, own: ModuleEntry, visited: set<string>, queue: seq<string>)
    requires Explored(graph, own, visited, queue) && queue != [] && queue[0] in visited
    ensures Explored(graph, own, visited, queue[1..])
  {
    hide Required;
    assert queue == [queue[0]] + queue[1..];
  }

  lemma Visit(graph: Specs, own: ModuleEntry, visited: set<string>, queue: seq<string>)
    requires Explored(graph, own, visited, queue) && queue != [] && queue[0] !in visited
    ensures var id := queue[0];
            Explored(graph, own, visited + {id}, queue[1..] + if id in graph.byId then graph.byId[id].requiresModule else [])
  {
    var id := queue[0];
    assert queue == [id] + queue[1..];
    assert id in queue;
    if id in graph.byId {
      forall r | r in graph.byId[id].requiresModule
        ensures r == own.id || Required(graph, own, r)
      {
        if r != own.id {
          ChainExtends(graph, own, id, r);
        }
      }
    }
  }

  lemma Begin(graph: Specs, own: ModuleEntry)
    ensures Explored(graph, own, {own.id}, own.requiresModule)
  {
    forall r | r in own.requiresModule
      ensures r == own.id || Required(graph, own, r)
    {
      if r != own.id {
        ChainStarts(graph, own, r);
      }
    }
  }

  method AddComponents(deps: set<string>, cs: seq<Component>) returns (r: set<string>)
    ensures forall x :: x in r <==> x in deps || exists c :: c in cs && c.id == x
  {
    r := deps;
    for k := 0 to |cs|
      invariant forall x :: x in r <==> x in deps || exists c :: c in cs[..k] && c.id == x
    {
      assert cs[..k + 1] == cs[..k] + [cs[k]];
      r := r + {cs[k].id};
    }
    assert cs[..|cs|] == cs;
  }

  method AddUses(own: ModuleEntry, node: string) returns (deps: set<string>)
    ensures forall x :: x in deps <==> FindComponent(own.spec.components, node).Some?
                                       && x in FindComponent(own.spec.components, node).value.uses && x != node
  {
    deps := {};
    var comp := FindComponent(own.spec.components, node);
    if comp.Some? {
      var uses := comp.value.uses;
      for k := 0 to |uses|
        invariant forall x :: x in deps <==> x in uses[..k] && x != node
      {
        assert uses[..k + 1] == uses[..k] + [uses[k]];
        if uses[k] != node {
          deps := deps + {uses[k]};
        }
      }
      assert uses[..|uses|] == uses;
    }
  }

  /** The components of the modules visited, the own module aside. */
  ghost predicate Gathered(graph: Specs, own: ModuleEntry, visited: set<string>, uses: set<string>, deps: set<string>) {
    forall x :: x in deps <==> x in uses || exists m :: m in visited && m != own.id && HasComponent(graph, m, x)
  }

  lemma GatherNext(graph: Specs, own: ModuleEntry, visited: set<string>, uses: set<string>, deps: set<string>, id: string, more: set<string>)
    requires Gathered(graph, own, visited, uses, deps) && id != own.id
    requires forall x :: x in more <==> x in deps || HasComponent(graph, id, x)
    ensures Gathered(graph, own, visited + {id}, uses, more)
  {
    forall x | x in more
      ensures x in uses || exists m :: m in visited + {id} && m != own.id && HasComponent(graph, m, x)
    {
      if x in deps && x !in uses {
        var m :| m in visited && m != own.id && HasComponent(graph, m, x);
        assert m in visited + {id};
      } else if x !in uses {
        assert id in visited + {id} && HasComponent(graph, id, x);
      }
    }
  }

  /** Walks the requirements breadth first; cyclic ones are walked once. */
  method Gather(graph: Specs, own: ModuleEntry, uses: set<string>) returns (deps: set<string>)
    ensures forall x :: x in deps <==> x in uses || exists m :: Required(graph, own, m) && HasComponent(graph, m, x)
  {
    hide Explored, HasComponent, Gathered;
    deps := uses;
    var visited := {own.id};
    var queue := own.requiresModule;
    Begin(graph, own);
    GatherNone(graph, own, uses);
    while queue != []
      invariant own.id in visited
      invariant Explored(graph, own, visited, queue) && Gathered(graph, own, visited, uses, deps)
      decreases |graph.byId.Keys - visited|, |queue|
    {
      var id := queue[0];
      if id in visited {
        DropVisited(graph, own, visited, queue);
        queue := queue[1..];
      } else {
        Visit(graph, own, visited, queue);
        ghost var before := deps;
        if id in graph.byId {
          deps := AddComponents(deps, graph.byId[id].spec.components);
        }
        ComponentsAdded(graph, id, before, deps);
        GatherNext(graph, own, visited, uses, before, id, deps);
        Shrinks(graph.byId.Keys, visited, id);
        visited := visited + {id};
        queue := queue[1..] + if id in graph.byId then graph.byId[id].requiresModule else [];
      }
    }
    VisitedExactly(graph, own, visited);
    GatheredAll(graph, own, visited, uses, deps);
  }

  lemma GatherNone(graph: Specs, own: ModuleEntry, uses: set<string>)
    ensures Gathered(graph, own, {own.id}, uses, uses)
  {
  }

  lemma ComponentsAdded(graph: Specs, id: string, before: set<string>, deps: set<string>)
    requires if id in graph.byId then forall x :: x in deps <==> x in before || exists c :: c in graph.byId[id].spec.components && c.id == x
             else deps == before
    ensures forall x :: x in deps <==> x in before || HasComponent(graph, id, x)
  {
  }

  lemma Shrinks(all: set<string>, visited: set<string>, id: string)
    requires id !in visited
    ensures |all - (visited + {id})| <= |all - visited|
    ensures id in all ==> |all - (visited + {id})| < |all - visited|
  {
    var rest := all - (visited + {id});
    if id in all {
      assert all - visited == rest + {id};
    } else {
      assert all - visited == rest;
    }
  }

  lemma GatheredAll(graph: Specs, own: ModuleEntry, visited: set<string>, uses: set<string>, deps: set<string>)
    requires Gathered(graph, own, visited, uses, deps)
    requires forall m :: Required(graph, own, m) <==> m in visited && m != own.id
    ensures forall x :: x in deps <==> x in uses || exists m :: Required(graph, own, m) && HasComponent(graph, m, x)
  {
    hide HasComponent, Required;
  }

  function ComponentIds(graph: Specs, m: string): set<string> {
    if m in graph.byId then set c | c in graph.byId[m].spec.components :: c.id else {}
  }

  /** All of a component's dependencies; none when its module is unknown. */
  ghost function DepSet(graph: Specs, modName: string, node: string): set<string> {
    if modName !in graph.byName then
      {}
    else
      var own := graph.byName[modName];
      var comp := FindComponent(own.spec.components, node);
      (if comp.Some? then set x | x in comp.value.uses && x != node else {}) +
      (set m, x | m in graph.byId && Required(graph, own, m) && x in ComponentIds(graph, m) :: x)
  }

  /** The set is exactly the direct uses and the components of the modules reached through requirements. */
  lemma DepSetExactly(graph: Specs, modName: string, node: string, x: string)
    requires modName in graph.byName
    ensures x in DepSet(graph, modName, node) <==> IsDep(graph, graph.byName[modName], node, x)
  {
    var own := graph.byName[modName];
    forall m
      ensures x in ComponentIds(graph, m) <==> HasComponent(graph, m, x)
    {
    }
  }

  /** The whole closure, sorted and free of duplicates, whatever cycles the modules form. */
  method CollectDeps(modName: string, node: string, graph: Specs) returns (deps: seq<string>)
    ensures deps == Listing(DepSet(graph, modName, node))
  {
    if modName !in graph.byName {
      ListingIs([], {});
      return [];
    }
    var own := graph.byName[modName];
    var uses := AddUses(own, node);
    var all := Gather(graph, own, uses);
    deps := SortedKeys(all);
    forall x
      ensures x in deps <==> x in DepSet(graph, modName, node)
    {
      DepSetExactly(graph, modName, node, x);
    }
    ListingIs(deps, DepSet(graph, modName, node));
  }

  /** With every module indexed under its own id, going through the module itself adds nothing. */
  lemma RequiredPlainly(graph: Specs, own: ModuleEntry, p: seq<string>)
    requires own.id in graph.byId && graph.byId[own.id] == own
    requires p != [] && p[0] in own.requiresModule && Walk(RequiresGraph(graph), p) && p[|p| - 1] != own.id
    ensures Required(graph, own, p[|p| - 1])
    decreases |p|
  {
    if own.id in p {
      var i :| 0 <= i < |p| && p[i] == own.id;
      var q := p[i + 1..];
      assert Step(RequiresGraph(graph), p, i);
      forall k | 0 <= k < |q| - 1
        ensures Step(RequiresGraph(graph), q, k)
      {
        assert Step(RequiresGraph(graph), p, i + 1 + k);
      }
      RequiredPlainly(graph, own, q);
    } else {
      assert Chain(graph, own, p);
    }
  }

  function DescribesOf(graph: Specs, modName: string, node: string): seq<string> {
    if modName !in graph.byName then
      []
    else
      var ts := FindTestSection(graph.byName[modName].spec.testSections, node);
      if ts.Some? then ts.value.describes else []
  }

  method CollectDescribes(modName: string, node: string, graph: Specs) returns (deps: seq<string>)
    ensures deps == Listing(set x | x in DescribesOf(graph, modName, node))
  {
    var ids := DescribesOf(graph, modName, node);
    var seen: set<string> := {};
    var out: seq<string> := [];
    for k := 0 to |ids|
      invariant NoDuplicates(out) && (forall x :: x in seen <==> x in out) && (forall x :: x in out <==> x in ids[..k])
    {
      assert ids[..k + 1] == ids[..k] + [ids[k]];
      if ids[k] !in seen {
        seen := seen + {ids[k]};
        out := out + [ids[k]];
      }
    }
    assert ids[..|ids|] == ids;
    SortStringsAscending(out);
    ListingIs(SortStrings(out), set x | x in ids);
    return SortStrings(out);
  }
}
