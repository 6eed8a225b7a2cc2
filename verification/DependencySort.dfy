/** `sort_ex` and `sort`: resolve the references of a dependency graph, then order its items. */
module DependencySort {
  import opened Results
  import opened Collections
  import opened Digraph
  import opened Topological

  /** The sets of a graph entry, each in its iteration order. */
  datatype DepGraphEntry<K, V> =
    DepGraphEntry(item: V, deps: seq<K>, weakDeps: seq<K>, merge: seq<K>, loopControl: seq<K>)

  datatype SortError<K> = Unresolved(ref: K, referrer: K) | Cycle(error: CycleError<K>)

  type Graph<K, V> = map<K, DepGraphEntry<K, V>>

  predicate References<K(==), V>(e: DepGraphEntry<K, V>, n: K) {
    n in e.weakDeps || n in e.merge || n in e.deps || n in e.loopControl
  }

  ghost predicate AllResolved<K(!new), V>(graph: Graph<K, V>) {
    forall k, n :: k in graph && References(graph[k], n) ==> n in graph
  }

  predicate HardRef<K(==), V>(e: DepGraphEntry<K, V>, n: K) {
    n in e.deps || n in e.merge || n in e.loopControl
  }

  /** The edges that must not form a cycle. */
  ghost function HardEdges<K(!new), V>(graph: Graph<K, V>): map<K, set<K>> {
    map k | k in graph :: set n | n in graph && HardRef(graph[k], n)
  }

  ghost function AllEdges<K(!new), V>(graph: Graph<K, V>): map<K, set<K>> {
    map k | k in graph :: set n | n in graph && References(graph[k], n)
  }

  // ---------------------------------------------------------------- resolving references

  /** `out` holds the members of `refs` that are in the graph. */
  ghost predicate Picks<K(!new), V>(graph: Graph<K, V>, refs: seq<K>, out: seq<K>) {
    forall n :: n in out <==> n in refs && n in graph
  }

  /** Add the resolved references to an ordered set; stop at an unresolved one unless that is allowed. */
  method Collect<K(==, !new), V>(graph: Graph<K, V>, refs: seq<K>, allowUnresolved: bool, ghost before: seq<K>,
                                 start: seq<K>)
      returns (out: seq<K>, missing: Option<K>)
    requires Picks(graph, before, start)
    ensures missing.Some? ==> !allowUnresolved && missing.value in refs && missing.value !in graph
    ensures missing.None? ==> Picks(graph, before + refs, out)
    ensures missing.None? && !allowUnresolved ==> forall n :: n in refs ==> n in graph
  {
    out := start;
    assert before + refs[..0] == before;
    for i := 0 to |refs|
      invariant Picks(graph, before + refs[..i], out)
      invariant !allowUnresolved ==> forall j :: 0 <= j < i ==> refs[j] in graph
    {
      assert before + refs[..i + 1] == before + refs[..i] + [refs[i]];
      if refs[i] in graph {
        if refs[i] !in out {
          out := out + [refs[i]];
        }
      } else if !allowUnresolved {
        return out, Some(refs[i]);
      }
    }
    assert refs[..|refs|] == refs;
    missing := None;
  }

  /** The adjacency lists built from one entry. */
  ghost predicate Linked<K(!new), V>(graph: Graph<K, V>, k: K, weak: seq<K>, adj: seq<K>, control: seq<K>)
    requires k in graph
  {
    && Picks(graph, graph[k].weakDeps, weak)
    && Picks(graph, graph[k].merge + graph[k].deps, adj)
    && Picks(graph, graph[k].loopControl, control)
  }

  method CollectEntry<K(==, !new), V>(graph: Graph<K, V>, k: K, allowUnresolved: bool)
      returns (weak: seq<K>, adj: seq<K>, control: seq<K>, missing: Option<K>)
    requires k in graph
    ensures missing.Some? ==> !allowUnresolved && References(graph[k], missing.value) && missing.value !in graph
    ensures missing.None? ==> Linked(graph, k, weak, adj, control)
    ensures missing.None? && !allowUnresolved ==> forall n :: References(graph[k], n) ==> n in graph
  {
    var e := graph[k];
    adj, control := [], [];
    weak, missing := Collect(graph, e.weakDeps, allowUnresolved, [], []);
    if missing.Some? { return; }
    assert [] + e.weakDeps == e.weakDeps;
    adj, missing := Collect(graph, e.merge, allowUnresolved, [], []);
    if missing.Some? { return; }
    assert [] + e.merge == e.merge;
    adj, missing := Collect(graph, e.deps, allowUnresolved, e.merge, adj);
    if missing.Some? { return; }
    control, missing := Collect(graph, e.loopControl, allowUnresolved, [], []);
    assert [] + e.loopControl == e.loopControl;
  }

  ghost predicate LinksOf<K(!new), V>(graph: Graph<K, V>, g: RawLinks<K>) {
    && g.adj.Keys == g.weakAdj.Keys == g.control.Keys == graph.Keys
    && forall k :: k in graph ==> Linked(graph, k, g.weakAdj[k], g.adj[k], g.control[k])
  }

  method Link<K(==, !new), V>(graph: Graph<K, V>, keys: seq<K>, allowUnresolved: bool)
    returns (r: Result<RawLinks<K>, SortError<K>>)
    requires forall k :: k in keys <==> k in graph
    ensures r.Ok? <==> allowUnresolved || AllResolved(graph)
    ensures r.Ok? ==> LinksOf(graph, r.value) && Resolved(r.value)
    ensures r.Err? ==> r.error.Unresolved? && r.error.referrer in graph && r.error.ref !in graph &&
                       References(graph[r.error.referrer], r.error.ref)
  {
    var adj: map<K, seq<K>>, weakAdj: map<K, seq<K>>, control: map<K, seq<K>> := map[], map[], map[];
    for i := 0 to |keys|
      invariant forall k :: k in adj <==> k in keys[..i]
      invariant adj.Keys == weakAdj.Keys == control.Keys
      invariant forall k :: k in adj ==> k in graph && Linked(graph, k, weakAdj[k], adj[k], control[k])
      invariant !allowUnresolved ==> forall k, n :: k in adj && References(graph[k], n) ==> n in graph
    {
      var k := keys[i];
      var weak, strong, ctrl, missing := CollectEntry(graph, k, allowUnresolved);
      if missing.Some? {
        return Err(Unresolved(missing.value, k));
      }
      adj, weakAdj, control := adj[k := strong], weakAdj[k := weak], control[k := ctrl];
      assert forall j :: j in keys[..i + 1] <==> j in keys[..i] || j == k;
    }
    assert keys[..|keys|] == keys;
    assert adj.Keys == graph.Keys;
    r := Ok(Links(adj, weakAdj, control));
  }

  lemma LinkMeaning<K(!new), V>(graph: Graph<K, V>, g: Links<K>, k: K, n: K)
    requires LinksOf(graph, g) && k in graph
    ensures n in g.adj[k] <==> n in graph && (n in graph[k].merge || n in graph[k].deps)
    ensures n in g.weakAdj[k] <==> n in graph && n in graph[k].weakDeps
    ensures n in g.control[k] <==> n in graph && n in graph[k].loopControl
  {
    assert Linked(graph, k, g.weakAdj[k], g.adj[k], g.control[k]);
  }

  lemma SameEdges<K(!new), V>(graph: Graph<K, V>, g: Links<K>)
    requires LinksOf(graph, g)
    ensures Hard(g) == HardEdges(graph) && Every(g) == AllEdges(graph)
  {
    forall k, n
      ensures Edge(Hard(g), k, n) <==> Edge(HardEdges(graph), k, n)
      ensures Edge(Every(g), k, n) <==> Edge(AllEdges(graph), k, n)
    {
      if k in graph {
        LinkMeaning(graph, g, k, n);
      }
    }
    SameGraph(Hard(g), HardEdges(graph));
    SameGraph(Every(g), AllEdges(graph));
  }

  // ---------------------------------------------------------------- ordering

  /** An item comes after what it depends on or merges, and after its weak dependencies unless they reach a cycle. */
  ghost predicate WellPlaced<K(!new), V>(graph: Graph<K, V>, order: seq<K>, i: nat)
    requires i < |order| && order[i] in graph
  {
    var e := graph[order[i]];
    && (forall n :: n in graph && (n in e.deps || n in e.merge) ==> n in order[..i])
    && (forall n :: n in graph && n in e.weakDeps ==> n in order[..i] || Cyclic(AllEdges(graph), n))
  }

  ghost predicate Sorted<K(!new), V>(graph: Graph<K, V>, order: seq<K>) {
    && Distinct(order)
    && (forall k :: k in order <==> k in graph)
    && (forall i :: 0 <= i < |order| ==> WellPlaced(graph, order, i))
  }

  /** When nothing reaches a cycle of any edges, sorting cannot fail and every weak dependency is honoured. */
  lemma AcyclicHonoursAll<K(!new), V>(graph: Graph<K, V>, order: seq<K>)
    requires forall k :: k in graph ==> !Cyclic(AllEdges(graph), k)
    ensures forall k :: k in graph ==> !Cyclic(HardEdges(graph), k)
    ensures Sorted(graph, order) ==>
      forall i, n :: 0 <= i < |order| && n in graph && n in graph[order[i]].weakDeps ==> n in order[..i]
  {
    forall k | k in graph ensures !Cyclic(HardEdges(graph), k) {
      if Cyclic(HardEdges(graph), k) {
        CyclicMonotone(HardEdges(graph), AllEdges(graph), k);
      }
    }
    if Sorted(graph, order) {
      forall i, n | 0 <= i < |order| && n in graph && n in graph[order[i]].weakDeps ensures n in order[..i] {
        assert WellPlaced(graph, order, i);
      }
    }
  }

  lemma {:induction false} OrderLists<K(!new)>(g: Links<K>, visited: set<K>, order: seq<K>)
    requires OrderOk(g, visited, order)
    ensures Distinct(order) && (forall k :: k in order <==> k in visited) && visited <= g.adj.Keys
    decreases |order|
  {
    if order == [] {
    } else {
      var n := |order| - 1;
      OrderLists(g, visited - {order[n]}, order[..n]);
      assert order == order[..n] + [order[n]];
    }
  }

  lemma {:induction false} OrderFits<K(!new)>(g: Links<K>, visited: set<K>, order: seq<K>, i: nat)
    requires OrderOk(g, visited, order) && i < |order|
    ensures exists before :: Fits(g, before, order[i]) && forall k :: k in before <==> k in order[..i]
    decreases |order|
  {
    var n := |order| - 1;
    if i == n {
      OrderLists(g, visited - {order[n]}, order[..n]);
    } else {
      OrderFits(g, visited - {order[n]}, order[..n], i);
      assert order[..n][..i] == order[..i];
    }
  }

  lemma SortedFromOrder<K(!new), V>(graph: Graph<K, V>, g: Links<K>, visited: set<K>, order: seq<K>)
    requires LinksOf(graph, g) && OrderOk(g, visited, order) && graph.Keys <= visited
    ensures Sorted(graph, order)
  {
    OrderLists(g, visited, order);
    SameEdges(graph, g);
    forall i | 0 <= i < |order| ensures WellPlaced(graph, order, i) {
      OrderFits(g, visited, order, i);
      forall n ensures n in g.adj[order[i]] <==> n in graph && (n in graph[order[i]].merge || n in graph[order[i]].deps)
               ensures n in g.weakAdj[order[i]] <==> n in graph && n in graph[order[i]].weakDeps
      {
        LinkMeaning(graph, g, order[i], n);
      }
    }
  }

  /** The traversal from every key, in the iteration order of the graph. */
  method VisitAll<K(==, !new)>(g: Links<K>, keys: seq<K>)
    returns (r: Result<seq<K>, CycleError<K>>, ghost visited: set<K>)
    requires forall k :: k in keys <==> k in g.adj
    ensures r.Err? ==> ErrorOk(Hard(g), r.error) && exists k :: k in g.adj && Cyclic(Hard(g), k)
    ensures r.Ok? ==> OrderOk(g, visited, r.value) && g.adj.Keys <= visited
    ensures r.Ok? ==> forall k :: k in g.adj ==> !Cyclic(Hard(g), k)
  {
    var v := new Visitor(g);
    visited := {};
    for i := 0 to |keys|
      invariant v.g == g && v.Valid() && v.visiting == [] && v.visitingWeak == {}
      invariant forall j :: 0 <= j < i ==> keys[j] in v.visited && !Cyclic(Hard(g), keys[j])
    {
      var e := v.Visit(keys[i], false, false);
      if e.Some? {
        return Err(e.value), visited;
      }
    }
    forall k | k in g.adj ensures k in v.visited && !Cyclic(Hard(g), k) {
      assert k in keys;
    }
    r, visited := Ok(v.order), v.visited;
  }

  /** Order the items of the graph; `keys` is the iteration order of the graph mapping. */
  method SortEx<K(==, !new), V>(graph: Graph<K, V>, keys: seq<K>, allowUnresolved: bool)
    returns (r: Result<seq<K>, SortError<K>>)
    requires forall k :: k in keys <==> k in graph
    ensures r.Err? && r.error.Unresolved? <==> !allowUnresolved && !AllResolved(graph)
    ensures r.Err? && r.error.Unresolved? ==> r.error.referrer in graph && r.error.ref !in graph &&
                                              References(graph[r.error.referrer], r.error.ref)
    ensures allowUnresolved || AllResolved(graph) ==>
      (r.Err? <==> exists k :: k in graph && Cyclic(HardEdges(graph), k))
    ensures r.Err? && r.error.Cycle? ==> ErrorOk(HardEdges(graph), r.error.error)
    ensures r.Ok? ==> Sorted(graph, r.value)
  {
    var linked := Link(graph, keys, allowUnresolved);
    if linked.Err? {
      return Err(linked.error);
    }
    SameEdges(graph, linked.value);
    var order, visited := VisitAll(linked.value, keys);
    if order.Err? {
      return Err(Cycle(order.error));
    }
    SortedFromOrder(graph, linked.value, visited, order.value);
    r := Ok(order.value);
  }

  /** The items in sorted order. */
  method Sort<K(==, !new), V>(graph: Graph<K, V>, keys: seq<K>, allowUnresolved: bool)
    returns (r: Result<seq<V>, SortError<K>>)
    requires forall k :: k in keys <==> k in graph
    ensures r.Ok? <==>
      (allowUnresolved || AllResolved(graph)) && forall k :: k in graph ==> !Cyclic(HardEdges(graph), k)
    ensures r.Ok? ==> exists order :: Sorted(graph, order) && |r.value| == |order| &&
                        forall i :: 0 <= i < |order| ==> r.value[i] == graph[order[i]].item
  {
    var s := SortEx(graph, keys, allowUnresolved);
    if s.Err? {
      return Err(s.error);
    }
    var items: seq<V> := [];
    for i := 0 to |s.value|
      invariant |items| == i && forall j :: 0 <= j < i ==> items[j] == graph[s.value[j]].item
    {
      assert WellPlaced(graph, s.value, i);
      items := items + [graph[s.value[i]].item];
    }
    r := Ok(items);
  }
}
