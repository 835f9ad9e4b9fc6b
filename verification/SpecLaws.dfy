/**
 What a node depends on, said of the spec alone.
 */
module SpecLaws {
  import opened Results
  import opened Order
  import opened Graph
  import opened SpecGraph

  /** Entry i is the first component of this id. */
  ghost predicate FirstComponent(cs: seq<Component>, id: string, i: int) {
    0 <= i < |cs| && cs[i].id == id && forall j :: 0 <= j < i ==> cs[j].id != id
  }

  ghost predicate FirstDataFlow(fs: seq<DataFlow>, id: string, i: int) {
    0 <= i < |fs| && fs[i].id == id && forall j :: 0 <= j < i ==> fs[j].id != id
  }

  ghost predicate FirstTestSection(ts: seq<TestSection>, id: string, i: int) {
    0 <= i < |ts| && ts[i].id == id && forall j :: 0 <= j < i ==> ts[j].id != id
  }

  lemma {:induction false} ComponentFound(cs: seq<Component>, id: string)
    ensures match FindComponent(cs, id)
            case Some(c) => exists i :: FirstComponent(cs, id, i) && cs[i] == c
            case None => forall i :: !FirstComponent(cs, id, i)
  {
    if cs != [] && cs[0].id == id {
      assert FirstComponent(cs, id, 0);
    } else if FindComponent(cs, id).Some? {
      ComponentFound(cs[1..], id);
      var i :| FirstComponent(cs[1..], id, i) && cs[1..][i] == FindComponent(cs, id).value;
      assert forall j :: 0 < j < i + 1 ==> cs[j] == cs[1..][j - 1];
      assert FirstComponent(cs, id, i + 1);
    }
  }

  lemma {:induction false} DataFlowFound(fs: seq<DataFlow>, id: string)
    ensures match FindDataFlow(fs, id)
            case Some(f) => exists i :: FirstDataFlow(fs, id, i) && fs[i] == f
            case None => forall i :: !FirstDataFlow(fs, id, i)
  {
    if fs != [] && fs[0].id == id {
      assert FirstDataFlow(fs, id, 0);
    } else if FindDataFlow(fs, id).Some? {
      DataFlowFound(fs[1..], id);
      var i :| FirstDataFlow(fs[1..], id, i) && fs[1..][i] == FindDataFlow(fs, id).value;
      assert forall j :: 0 < j < i + 1 ==> fs[j] == fs[1..][j - 1];
      assert FirstDataFlow(fs, id, i + 1);
    }
  }

  lemma {:induction false} TestSectionFound(ts: seq<TestSection>, id: string)
    ensures match FindTestSection(ts, id)
            case Some(t) => exists i :: FirstTestSection(ts, id, i) && ts[i] == t
            case None => forall i :: !FirstTestSection(ts, id, i)
  {
    if ts != [] && ts[0].id == id {
      assert FirstTestSection(ts, id, 0);
    } else if FindTestSection(ts, id).Some? {
      TestSectionFound(ts[1..], id);
      var i :| FirstTestSection(ts[1..], id, i) && ts[1..][i] == FindTestSection(ts, id).value;
      assert forall j :: 0 < j < i + 1 ==> ts[j] == ts[1..][j - 1];
      assert FirstTestSection(ts, id, i + 1);
    }
  }

  ghost predicate RequiresOf(graph: Specs, m: string, n: string) {
    m in graph.byId && n in graph.byId[m].requiresModule
  }

  /** A way from the module's own requirements through those of other modules. */
  ghost predicate Way(graph: Specs, own: ModuleEntry, p: seq<string>) {
    && p != [] && p[0] in own.requiresModule && (forall m :: m in p ==> m != own.id)
    && forall i, j :: 0 <= i && j == i + 1 < |p| ==> RequiresOf(graph, p[i], p[j])
  }

  ghost predicate Holds(graph: Specs, m: string, x: string) {
    m in graph.byId && exists k :: 0 <= k < |graph.byId[m].spec.components| && graph.byId[m].spec.components[k].id == x
  }

  /** The component uses x, which is not itself, or x is a component of a module a way leads to. */
  ghost predicate Needs(graph: Specs, own: ModuleEntry, node: string, x: string) {
    || (x != node && exists i :: FirstComponent(own.spec.components, node, i) && x in own.spec.components[i].uses)
    || (exists p :: Way(graph, own, p) && Holds(graph, p[|p| - 1], x))
  }

  lemma WayExactly(graph: Specs, own: ModuleEntry, p: seq<string>)
    ensures Way(graph, own, p) <==> Chain(graph, own, p)
  {
    var g := RequiresGraph(graph);
    if Way(graph, own, p) {
      forall i | 0 <= i < |p| - 1
        ensures Step(g, p, i)
      {
        var j := i + 1;
        assert RequiresOf(graph, p[i], p[j]);
      }
    }
    if Chain(graph, own, p) {
      forall i, j | 0 <= i && j == i + 1 < |p|
        ensures RequiresOf(graph, p[i], p[j])
      {
        assert Step(g, p, i);
      }
    }
  }

  lemma OneFirst(cs: seq<Component>, id: string, i: int, j: int)
    requires FirstComponent(cs, id, i) && FirstComponent(cs, id, j)
    ensures i == j
  {
  }

  lemma UsesExactly(own: ModuleEntry, node: string, x: string)
    ensures (FindComponent(own.spec.components, node).Some? && x in FindComponent(own.spec.components, node).value.uses) <==>
            exists i :: FirstComponent(own.spec.components, node, i) && x in own.spec.components[i].uses
  {
    ComponentFound(own.spec.components, node);
    forall i, j | FirstComponent(own.spec.components, node, i) && FirstComponent(own.spec.components, node, j)
      ensures i == j
    {
      OneFirst(own.spec.components, node, i, j);
    }
  }

  /** What a component waits for. */
  lemma NeedsExactly(graph: Specs, own: ModuleEntry, node: string, x: string)
    ensures IsDep(graph, own, node, x) <==> Needs(graph, own, node, x)
  {
    hide Way, Chain, FirstComponent, Holds, HasComponent, Required;
    UsesExactly(own, node, x);
    NeedsModule(graph, own, x);
    forall p
      ensures Way(graph, own, p) ==> p != []
    {
      NotEmpty(graph, own, p);
    }
  }

  lemma HoldsExactly(graph: Specs, m: string, x: string)
    ensures Holds(graph, m, x) <==> HasComponent(graph, m, x)
  {
    if HasComponent(graph, m, x) {
      var c :| c in graph.byId[m].spec.components && c.id == x;
      var k :| 0 <= k < |graph.byId[m].spec.components| && graph.byId[m].spec.components[k] == c;
    }
    if Holds(graph, m, x) {
      var k :| 0 <= k < |graph.byId[m].spec.components| && graph.byId[m].spec.components[k].id == x;
      assert graph.byId[m].spec.components[k] in graph.byId[m].spec.components;
    }
  }

  lemma NeedsModule(graph: Specs, own: ModuleEntry, x: string)
    ensures (exists m :: Required(graph, own, m) && HasComponent(graph, m, x)) <==>
            exists p :: Way(graph, own, p) && p != [] && Holds(graph, p[|p| - 1], x)
  {
    hide Way, Chain, Holds, HasComponent;
    forall p
      ensures Way(graph, own, p) <==> Chain(graph, own, p)
      ensures Way(graph, own, p) ==> p != []
    {
      WayExactly(graph, own, p);
      NotEmpty(graph, own, p);
    }
    forall m
      ensures Holds(graph, m, x) <==> HasComponent(graph, m, x)
    {
      HoldsExactly(graph, m, x);
    }
    if m :| Required(graph, own, m) && HasComponent(graph, m, x) {
      var p :| Chain(graph, own, p) && p[|p| - 1] == m;
      assert Way(graph, own, p) && Holds(graph, p[|p| - 1], x);
    }
    if p :| Way(graph, own, p) && p != [] && Holds(graph, p[|p| - 1], x) {
      assert Required(graph, own, p[|p| - 1]) && HasComponent(graph, p[|p| - 1], x);
    }
  }

  lemma NotEmpty(graph: Specs, own: ModuleEntry, p: seq<string>)
    ensures Way(graph, own, p) ==> p != []
  {
  }

  /** The collected dependencies: nothing for an unknown module, otherwise what the component needs, ascending. */
  lemma DepsSay(graph: Specs, modName: string, node: string, x: string)
    ensures x in DepSet(graph, modName, node) <==> modName in graph.byName && Needs(graph, graph.byName[modName], node, x)
  {
    hide DepSet, IsDep, Needs;
    if modName in graph.byName {
      DepSetExactly(graph, modName, node, x);
      NeedsExactly(graph, graph.byName[modName], node, x);
    } else {
      NoDeps(graph, modName, node);
    }
  }

  lemma NoDeps(graph: Specs, modName: string, node: string)
    requires modName !in graph.byName
    ensures DepSet(graph, modName, node) == {}
  {
  }
}
