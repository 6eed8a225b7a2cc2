/**
 Propagation of pointers to derived types before SDL is linearized: `_merge_items` and `_graph_merge_cb`
 (edb/edgeql/declarative.py) driven by `normalize` (edb/common/topological.py).
 */
module Inheritance {
  import opened Results
  import opened Digraph
  import opened Topological
  import opened DependencySort

  type Name = string
  type Target = string

  datatype PointerType = Property | Link | UnknownPointer

  /** The `pointers` dictionary of a type or of a link. */
  datatype Scope = Scope(ptrs: map<Name, Pointer>)

  datatype Pointer = Pointer(kind: PointerType, target: Target, scope: Scope)

  /** The class a copied pointer gets. */
  function CopiedKind(kind: PointerType): PointerType {
    if kind.Property? then Property else Link
  }

  /** What `_merge_items` leaves in `item.pointers`. */
  function Merge(item: Scope, parent: Scope): Scope
    decreases parent, 1
  {
    Scope(map pn | pn in item.ptrs.Keys + parent.ptrs.Keys :: Merged(item, parent, pn))
  }

  function Merged(item: Scope, parent: Scope, pn: Name): Pointer
    requires pn in item.ptrs || pn in parent.ptrs
    decreases parent, 0
  {
    if pn !in parent.ptrs then item.ptrs[pn]
    else if pn !in item.ptrs then parent.ptrs[pn].(kind := CopiedKind(parent.ptrs[pn].kind))
    else
      var own := item.ptrs[pn];
      Pointer(CopiedKind(own.kind), own.target, Merge(own.scope, parent.ptrs[pn].scope))
  }

  /** The loop of `_merge_items`: the parent's pointers in `todo` are still to be merged. */
  ghost predicate Merging(item: Scope, parent: Scope, todo: set<Name>, ptrs: map<Name, Pointer>) {
    && todo <= parent.ptrs.Keys
    && (forall pn :: pn in ptrs <==> pn in item.ptrs || (pn in parent.ptrs && pn !in todo))
    && (forall pn :: pn in ptrs ==> ptrs[pn] == if pn in todo then item.ptrs[pn] else Merged(item, parent, pn))
  }

  lemma MergingNext(item: Scope, parent: Scope, todo: set<Name>, ptrs: map<Name, Pointer>, pn: Name)
    requires Merging(item, parent, todo, ptrs) && pn in todo
    ensures pn in ptrs <==> pn in item.ptrs
    ensures pn in ptrs ==> ptrs[pn] == item.ptrs[pn]
    ensures Merging(item, parent, todo - {pn}, ptrs[pn := Merged(item, parent, pn)])
  {
  }

  lemma MergingDone(item: Scope, parent: Scope, ptrs: map<Name, Pointer>)
    requires Merging(item, parent, {}, ptrs)
    ensures Scope(ptrs) == Merge(item, parent)
  {
    assert ptrs == Merge(item, parent).ptrs;
  }

  /** `_merge_items`, on the dictionary of the receiver. */
  method MergeItems(item: Scope, parent: Scope) returns (r: Scope)
    ensures r == Merge(item, parent)
    decreases parent, 1
  {
    var ptrs := item.ptrs;
    var todo := parent.ptrs.Keys;
    while todo != {}
      invariant Merging(item, parent, todo, ptrs)
      decreases |todo|
    {
      var pn :| pn in todo;
      MergingNext(item, parent, todo, ptrs, pn);
      var ptr := MergePointer(if pn in ptrs then Some(ptrs[pn]) else None, parent.ptrs[pn], item, parent, pn);
      ptrs := ptrs[pn := ptr];
      todo := todo - {pn};
    }
    MergingDone(item, parent, ptrs);
    r := Scope(ptrs);
  }

  /** One turn of its loop: copy the parent's pointer, or merge it into a copy of the item's own. */
  method MergePointer(own: Option<Pointer>, ptr: Pointer, ghost item: Scope, ghost parent: Scope, ghost pn: Name)
    returns (r: Pointer)
    requires pn in parent.ptrs && ptr == parent.ptrs[pn]
    requires own == if pn in item.ptrs then Some(item.ptrs[pn]) else None
    ensures r == Merged(item, parent, pn)
    decreases parent, 0
  {
    if own.None? {
      r := ptr.(kind := CopiedKind(ptr.kind));
    } else {
      var nested := MergeItems(own.value.scope, ptr.scope);
      r := Pointer(CopiedKind(own.value.kind), own.value.target, nested);
    }
  }

  // ---------------------------------------------------------------- what merging means

  datatype Declared = Declared(property: bool, target: Target)

  /** What is declared at the end of a path of pointer names. */
  function Lookup(scope: Scope, path: seq<Name>): Option<Declared>
    requires path != []
    decreases |path|
  {
    if path[0] !in scope.ptrs then None
    else if |path| == 1 then Some(Declared(scope.ptrs[path[0]].kind.Property?, scope.ptrs[path[0]].target))
    else Lookup(scope.ptrs[path[0]].scope, path[1..])
  }

  function OrElse<T>(a: Option<T>, b: Option<T>): Option<T> {
    if a.Some? then a else b
  }

  /** At every depth, what the item declares wins and what only the parent declares is inherited. */
  lemma {:induction false} MergeLookup(item: Scope, parent: Scope, path: seq<Name>)
    requires path != []
    ensures Lookup(Merge(item, parent), path) == OrElse(Lookup(item, path), Lookup(parent, path))
    decreases |path|
  {
    var pn := path[0];
    if |path| > 1 && pn in item.ptrs && pn in parent.ptrs {
      MergeLookup(item.ptrs[pn].scope, parent.ptrs[pn].scope, path[1..]);
    }
  }

  /** Whatever meets a pointer of the parent is a property or a link afterwards. */
  lemma MergedKind(item: Scope, parent: Scope, pn: Name)
    requires pn in parent.ptrs
    ensures
      var kind := if pn in item.ptrs then item.ptrs[pn].kind else parent.ptrs[pn].kind;
      Merge(item, parent).ptrs[pn].kind == if kind.Property? then Property else Link
  {
  }

  // ---------------------------------------------------------------- the inheritance graph

  /** The sources are objects whose dictionaries are updated in place; other items are left alone. */
  class Source {
    var scope: Scope

    method MergeFrom(parent: Scope)
      modifies this
      ensures scope == Merge(old(scope), parent)
    {
      scope := MergeItems(scope, parent);
    }
  }

  datatype Item = Src(source: Source) | Other(name: Name)

  /** `_graph_merge_cb` merges only sources into sources. */
  ghost function MergeEdges<K(!new)>(graph: Graph<K, Item>): map<K, set<K>> {
    map k | k in graph :: set m | m in graph && m in graph[k].merge && graph[k].item.Src? && graph[m].item.Src?
  }

  /** `a` is `k` or one of its transitive bases, and declares something at `path`. */
  ghost predicate Declares<K(!new)>(e: map<K, set<K>>, own: map<K, Scope>, k: K, a: K, path: seq<Name>)
    requires path != []
  {
    Reaches(e, k, a) && a in own && Lookup(own[a], path).Some?
  }

  /** `scope` is what `k` should end up with: its own pointers and those of all its transitive bases, at every depth. */
  ghost predicate Explained<K(!new)>(e: map<K, set<K>>, own: map<K, Scope>, k: K, scope: Scope, path: seq<Name>)
    requires path != [] && k in own
  {
    && (Lookup(own[k], path).Some? ==> Lookup(scope, path) == Lookup(own[k], path))
    && (Lookup(scope, path).Some? ==>
      exists a :: Declares(e, own, k, a, path) && Lookup(own[a], path) == Lookup(scope, path))
    && ((exists a :: Declares(e, own, k, a, path)) ==> Lookup(scope, path).Some?)
  }

  ghost predicate Inherited<K(!new)>(e: map<K, set<K>>, own: map<K, Scope>, k: K, scope: Scope)
    requires k in own
  {
    forall path :: path != [] ==> Explained(e, own, k, scope, path)
  }

  // ---------------------------------------------------------------- merging one base after another

  /** `a` is `k` itself or comes from one of the bases `ms`. */
  ghost predicate Supplies<K(!new)>(e: map<K, set<K>>, own: map<K, Scope>, k: K, ms: seq<K>, a: K, path: seq<Name>)
    requires path != [] && k in own
  {
    (a == k && Lookup(own[k], path).Some?) || exists m :: m in ms && Declares(e, own, m, a, path)
  }

  /** `scope` is what `k` has after merging the bases `ms`. */
  ghost predicate Partly<K(!new)>(e: map<K, set<K>>, own: map<K, Scope>, k: K, ms: seq<K>, scope: Scope,
                                  path: seq<Name>)
    requires path != [] && k in own
  {
    && (Lookup(own[k], path).Some? ==> Lookup(scope, path) == Lookup(own[k], path))
    && (Lookup(scope, path).Some? ==>
          exists a :: a in own && Supplies(e, own, k, ms, a, path) && Lookup(own[a], path) == Lookup(scope, path))
    && ((exists a :: Supplies(e, own, k, ms, a, path)) ==> Lookup(scope, path).Some?)
  }

  lemma MergeBase<K(!new)>(e: map<K, set<K>>, own: map<K, Scope>, k: K, ms: seq<K>, m: K, scope: Scope, parent: Scope,
                           path: seq<Name>)
    requires path != [] && k in own && m in own
    requires Partly(e, own, k, ms, scope, path) && Explained(e, own, m, parent, path)
    ensures Partly(e, own, k, ms + [m], Merge(scope, parent), path)
  {
    MergeLookup(scope, parent, path);
    var after := Lookup(Merge(scope, parent), path);
    forall a
      ensures Supplies(e, own, k, ms + [m], a, path) <==>
        Supplies(e, own, k, ms, a, path) || Declares(e, own, m, a, path)
    {
      SuppliesOneMore(e, own, k, ms, m, a, path);
    }
    if Lookup(scope, path).Some? {
      var a :| a in own && Supplies(e, own, k, ms, a, path) && Lookup(own[a], path) == after;
      assert Supplies(e, own, k, ms + [m], a, path);
    } else if Lookup(parent, path).Some? {
      var a :| Declares(e, own, m, a, path) && Lookup(own[a], path) == after;
      assert Supplies(e, own, k, ms + [m], a, path);
    }
  }

  lemma SuppliesOneMore<K(!new)>(e: map<K, set<K>>, own: map<K, Scope>, k: K, ms: seq<K>, m: K, a: K, path: seq<Name>)
    requires path != [] && k in own
    ensures Supplies(e, own, k, ms + [m], a, path) <==> Supplies(e, own, k, ms, a, path) || Declares(e, own, m, a, path)
  {
    assert m in ms + [m];
    assert forall x :: x in ms ==> x in ms + [m];
  }

  /** Once all bases are merged, the type has what it and its transitive bases declare. */
  lemma AllBases<K(!new)>(e: map<K, set<K>>, own: map<K, Scope>, k: K, ms: seq<K>, scope: Scope, path: seq<Name>)
    requires path != [] && k in own && (forall m :: m in ms <==> Edge(e, k, m))
    requires Partly(e, own, k, ms, scope, path)
    ensures Explained(e, own, k, scope, path)
  {
    forall a ensures Supplies(e, own, k, ms, a, path) <==> Declares(e, own, k, a, path) {
      SuppliesAll(e, own, k, ms, a, path);
    }
  }

  lemma SuppliesAll<K(!new)>(e: map<K, set<K>>, own: map<K, Scope>, k: K, ms: seq<K>, a: K, path: seq<Name>)
    requires path != [] && k in own && (forall m :: m in ms <==> Edge(e, k, m))
    ensures Supplies(e, own, k, ms, a, path) <==> Declares(e, own, k, a, path)
  {
    ReachesSplit(e, k, a);
    if Declares(e, own, k, a, path) && a != k {
      var m := ReachesFirst(e, k, a);
      assert m in ms && Declares(e, own, m, a, path);
    }
    if m :| m in ms && Declares(e, own, m, a, path) {
      ReachesStep(e, k, m, a);
    }
  }

  // ---------------------------------------------------------------- normalize

  ghost function Touched(item: Item): set<Source> {
    if item.Src? then {item.source} else {}
  }

  ghost function Sources<K>(graph: Graph<K, Item>): set<Source> {
    set k | k in graph && graph[k].item.Src? :: graph[k].item.source
  }

  /** Each item is an object of its own. */
  ghost predicate NotShared<K(!new)>(graph: Graph<K, Item>) {
    forall k, j :: k in graph && j in graph && k != j && graph[k].item.Src? && graph[j].item.Src? ==>
      graph[k].item.source != graph[j].item.source
  }

  /** The dictionaries as declared, before anything is merged. */
  ghost function Own<K(!new)>(graph: Graph<K, Item>): map<K, Scope>
    reads Sources(graph)
  {
    map k | k in graph && graph[k].item.Src? :: graph[k].item.source.scope
  }

  /** The source behind `k`, if it is one, has everything it should inherit. */
  ghost predicate Finished<K(!new)>(graph: Graph<K, Item>, own: map<K, Scope>, k: K)
    requires k in graph && (graph[k].item.Src? ==> k in own)
    reads Touched(graph[k].item)
  {
    graph[k].item.Src? ==> Inherited(MergeEdges(graph), own, k, graph[k].item.source.scope)
  }

  /** Merge all bases, already finished themselves, into one item. */
  method MergeBases<K(==, !new)>(graph: Graph<K, Item>, merged: map<K, Item>, k: K, ghost own: map<K, Scope>)
    requires NotShared(graph) && k in graph && k !in graph[k].merge
    requires forall j :: j in own <==> j in graph && graph[j].item.Src?
    requires forall m :: m in graph[k].merge ==>
      m in graph && m in merged && merged[m] == graph[m].item && Finished(graph, own, m)
    requires graph[k].item.Src? ==> graph[k].item.source.scope == own[k]
    modifies Touched(graph[k].item)
    ensures Finished(graph, own, k)
  {
    var item, merge := graph[k].item, graph[k].merge;
    ghost var e := MergeEdges(graph);
    ghost var ms: seq<K> := [];
    for i := 0 to |merge|
      invariant forall m :: m in ms <==> m in merge[..i] && item.Src? && graph[m].item.Src?
      invariant forall m :: m in merge ==> Finished(graph, own, m)
      invariant item.Src? ==> forall path :: path != [] ==> Partly(e, own, k, ms, item.source.scope, path)
    {
      var m := merge[i];
      var parent := merged[m];
      assert forall x :: x in merge[..i + 1] <==> x in merge[..i] || x == m;
      assert Finished(graph, own, m);
      if item.Src? && parent.Src? {
        ghost var before := item.source.scope;
        item.source.MergeFrom(parent.source.scope);
        forall path | path != [] ensures Partly(e, own, k, ms + [m], item.source.scope, path) {
          MergeBase(e, own, k, ms, m, before, parent.source.scope, path);
        }
        ms := ms + [m];
      }
    }
    assert merge[..|merge|] == merge;
    if item.Src? {
      forall path | path != [] ensures Explained(e, own, k, item.source.scope, path) {
        AllBases(e, own, k, ms, item.source.scope, path);
      }
    }
  }

  /** The first `i` items are merged and finished; the others are as declared.  `now` is what the sources hold. */
  ghost predicate Progress<K(!new)>(graph: Graph<K, Item>, order: seq<K>, i: nat, merged: map<K, Item>,
                                    own: map<K, Scope>, now: map<K, Scope>)
    requires i <= |order| && now.Keys == own.Keys
  {
    && (forall k :: k in merged <==> k in order[..i])
    && (forall k :: k in merged ==> k in graph && merged[k] == graph[k].item)
    && (forall k :: k in own && k in merged ==> Inherited(MergeEdges(graph), own, k, now[k]))
    && (forall k :: k in own && k !in merged ==> now[k] == own[k])
  }

  lemma ProgressNext<K(!new)>(graph: Graph<K, Item>, order: seq<K>, i: nat, merged: map<K, Item>, own: map<K, Scope>,
                              now: map<K, Scope>, now': map<K, Scope>)
    requires i < |order| && now.Keys == now'.Keys == own.Keys && Progress(graph, order, i, merged, own, now)
    requires order[i] in graph && forall k :: k in own && k != order[i] ==> now'[k] == now[k]
    requires order[i] in own ==> Inherited(MergeEdges(graph), own, order[i], now'[order[i]])
    ensures Progress(graph, order, i + 1, merged[order[i] := graph[order[i]].item], own, now')
  {
    assert order[..i + 1] == order[..i] + [order[i]];
  }

  method MergeNext<K(==, !new)>(graph: Graph<K, Item>, order: seq<K>, i: nat, before: map<K, Item>,
                                ghost own: map<K, Scope>)
    returns (merged: map<K, Item>)
    requires NotShared(graph) && Sorted(graph, order) && AllResolved(graph) && i < |order|
    requires own.Keys == Own(graph).Keys && Progress(graph, order, i, before, own, Own(graph))
    modifies Sources(graph)
    ensures Progress(graph, order, i + 1, merged, own, Own(graph))
  {
    var name := order[i];
    BasesComeFirst(graph, order, i);
    ghost var now := Own(graph);
    MergeBases(graph, before, name, own);
    ProgressNext(graph, order, i, before, own, now, Own(graph));
    merged := before[name := graph[name].item];
  }

  method MergeInOrder<K(==, !new)>(graph: Graph<K, Item>, order: seq<K>) returns (merged: map<K, Item>)
    requires NotShared(graph) && Sorted(graph, order) && AllResolved(graph)
    modifies Sources(graph)
    ensures merged == map k | k in graph :: graph[k].item
    ensures forall k :: k in graph ==> Finished(graph, old(Own(graph)), k)
  {
    ghost var own := Own(graph);
    merged := map[];
    for i := 0 to |order|
      invariant Progress(graph, order, i, merged, own, Own(graph))
    {
      merged := MergeNext(graph, order, i, merged, own);
    }
    assert order[..|order|] == order;
  }

  lemma BasesComeFirst<K(!new)>(graph: Graph<K, Item>, order: seq<K>, i: nat)
    requires Sorted(graph, order) && AllResolved(graph) && i < |order|
    ensures order[i] in graph && order[i] !in order[..i]
    ensures forall m :: m in graph[order[i]].merge ==> m in graph && m in order[..i]
  {
    assert WellPlaced(graph, order, i);
    forall m | m in graph[order[i]].merge ensures m in graph {
      assert References(graph[order[i]], m);
    }
  }

  /**
   Sort the inheritance graph and merge bases into derived types in that order.  The lookup of a base among the
   merged items never fails, and every source ends up with its own pointers and those of all its transitive bases.
   */
  method Normalize<K(==, !new)>(graph: Graph<K, Item>, keys: seq<K>) returns (r: Result<map<K, Item>, SortError<K>>)
    requires NotShared(graph) && forall k :: k in keys <==> k in graph
    modifies Sources(graph)
    ensures r.Ok? <==> AllResolved(graph) && forall k :: k in graph ==> !Cyclic(HardEdges(graph), k)
    ensures r.Err? ==> Own(graph) == old(Own(graph))
    ensures r.Ok? ==> r.value == map k | k in graph :: graph[k].item
    ensures r.Ok? ==> forall k :: k in graph ==> Finished(graph, old(Own(graph)), k)
  {
    var sorted := SortEx(graph, keys, false);
    if sorted.Err? {
      return Err(sorted.error);
    }
    var merged := MergeInOrder(graph, sorted.value);
    r := Ok(merged);
  }
}
