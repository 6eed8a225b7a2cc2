/**
 Topological sorting with strong, weak and loop-control edges (edb/common/topological.py).

 Weak dependencies are a preference: a cycle met below a weak link abandons that link and nothing else.
 */
module Topological {
  import opened Results
  import opened Collections
  import opened Digraph

  datatype CycleError<K> = CycleError(item: K, path: seq<K>)

  /** Adjacency lists. */
  datatype RawLinks<K> = Links(adj: map<K, seq<K>>, weakAdj: map<K, seq<K>>, control: map<K, seq<K>>)

  ghost predicate Resolved<K(!new)>(g: RawLinks<K>) {
    && g.adj.Keys == g.weakAdj.Keys == g.control.Keys
    && forall k, n :: k in g.adj && (n in g.adj[k] || n in g.weakAdj[k] || n in g.control[k]) ==> n in g.adj
  }

  /** The adjacency lists of the graph, every reference resolved. */
  type Links<K(!new)> = g: RawLinks<K> | Resolved(g) ghost witness Links(map[], map[], map[])

  /** The edges that must not form a cycle: dependencies, merges and loop control. */
  ghost function Hard<K(!new)>(g: Links<K>): map<K, set<K>> {
    map k | k in g.adj :: set n | n in g.adj && (n in g.adj[k] || n in g.control[k])
  }

  /** All edges, weak ones included. */
  ghost function Every<K(!new)>(g: Links<K>): map<K, set<K>> {
    map k | k in g.adj :: set n | n in g.adj && (n in g.adj[k] || n in g.control[k] || n in g.weakAdj[k])
  }

  // ---------------------------------------------------------------- what the traversal keeps

  /** `item` may follow `before`: its dependencies are there, and its weak dependencies unless they reach a cycle. */
  ghost predicate Fits<K(!new)>(g: Links<K>, before: set<K>, item: K) {
    && item in g.adj
    && item !in before
    && (forall n :: n in g.adj[item] ==> n in before)
    && (forall n :: n in g.weakAdj[item] ==> n in before || Cyclic(Every(g), n))
    && !Cyclic(Hard(g), item)
  }

  /** `order` lists the visited items, each where it fits. */
  ghost predicate OrderOk<K(!new)>(g: Links<K>, visited: set<K>, order: seq<K>) {
    if order == [] then visited == {} else
      var n := |order| - 1;
      order[n] in visited && Fits(g, visited - {order[n]}, order[n]) && OrderOk(g, visited - {order[n]}, order[..n])
  }

  /** The edge by which the next item was reached from the top of the stack. */
  ghost predicate ReachedBy<K>(e: map<K, set<K>>, visiting: seq<K>, item: K) {
    visiting == [] || Edge(e, visiting[|visiting| - 1], item)
  }

  /**
   The stack is a path of unvisited items without repetition.  Its items below position `w` are linked by hard
   edges; those from `w` on are exactly the ones being visited weakly.
   */
  ghost predicate StackOk<K(!new)>(g: Links<K>, visited: set<K>, visiting: seq<K>, weak: set<K>, w: nat) {
    w <= |visiting| &&
    if visiting == [] then weak == {} else
      var n := |visiting| - 1;
      && visiting[n] in g.adj
      && visiting[n] !in visiting[..n]
      && visiting[n] !in visited
      && (if w == |visiting| then
            && weak == {}
            && StackOk(g, visited, visiting[..n], {}, n)
            && ReachedBy(Hard(g), visiting[..n], visiting[n])
          else
            && visiting[n] in weak
            && StackOk(g, visited, visiting[..n], weak - {visiting[n]}, w)
            && ReachedBy(Every(g), visiting[..n], visiting[n]))
  }

  /** The traversal's variables are consistent: the weakly visited items are a suffix of the stack. */
  ghost predicate Consistent<K(!new)>(g: Links<K>, visited: set<K>, order: seq<K>, visiting: seq<K>, weak: set<K>) {
    exists w: nat :: StackOk(g, visited, visiting, weak, w) && OrderOk(g, visited, order)
  }

  /**
   The reported item lies on a cycle, and the last element of the path depends on it.  The path does not contain the
   item: it leads to the item and from there around the cycle.
   */
  ghost predicate ErrorOk<K(!new)>(e: map<K, set<K>>, err: CycleError<K>) {
    && ReachesStrictly(e, err.item, err.item)
    && Edge(e, if err.path == [] then err.item else err.path[|err.path| - 1], err.item)
    && err.item !in err.path && Distinct(err.path)
    && exists j :: ComesBack(e, err, j)
  }

  ghost predicate ComesBack<K>(e: map<K, set<K>>, err: CycleError<K>, j: int) {
    0 <= j <= |err.path| && Path(e, err.path[..j] + [err.item] + err.path[j..] + [err.item])
  }

  // ---------------------------------------------------------------- lemmas about these

  lemma ReachedByHard<K(!new)>(g: Links<K>, visiting: seq<K>, item: K)
    requires ReachedBy(Hard(g), visiting, item)
    ensures ReachedBy(Every(g), visiting, item)
  {
  }

  /** A good stack is a path, of hard edges where no weak link was taken. */
  lemma {:induction false} StackIsPath<K(!new)>(g: Links<K>, visited: set<K>, visiting: seq<K>, weak: set<K>, w: nat)
    requires StackOk(g, visited, visiting, weak, w)
    ensures Distinct(visiting)
    ensures visiting != [] ==> Path(Every(g), visiting)
    ensures visiting != [] && w == |visiting| ==> Path(Hard(g), visiting)
    decreases |visiting|
  {
    if visiting == [] {
    } else {
      var n := |visiting| - 1;
      var below, top := visiting[..n], visiting[n];
      assert visiting == below + [top];
      if w == |visiting| {
        StackIsPath(g, visited, below, {}, n);
        ReachedByHard(g, below, top);
        PushPath(Hard(g), below, top);
      } else {
        StackIsPath(g, visited, below, weak - {top}, w);
      }
      PushPath(Every(g), below, top);
    }
  }

  /** The weakly visited items are the suffix of the stack from `w` on. */
  lemma {:induction false} WeakSuffix<K(!new)>(g: Links<K>, visited: set<K>, visiting: seq<K>, weak: set<K>, w: nat)
    requires StackOk(g, visited, visiting, weak, w)
    ensures |weak| == |visiting| - w && forall x :: x in weak <==> x in visiting[w..]
    ensures forall x :: x in visiting ==> x !in visited
    decreases |visiting|
  {
    if visiting == [] {
    } else {
      var n := |visiting| - 1;
      if w == |visiting| {
        WeakSuffix(g, visited, visiting[..n], {}, n);
      } else {
        WeakSuffix(g, visited, visiting[..n], weak - {visiting[n]}, w);
        assert visiting[w..] == visiting[..n][w..] + [visiting[n]];
      }
    }
  }

  /** Visiting an item off the stack leaves the stack good. */
  lemma {:induction false} VisitOffStack<K(!new)>(g: Links<K>, visited: set<K>, visiting: seq<K>, weak: set<K>, w: nat,
                                                  item: K)
    requires StackOk(g, visited, visiting, weak, w) && item !in visiting
    ensures StackOk(g, visited + {item}, visiting, weak, w)
    decreases |visiting|
  {
    if visiting == [] {
    } else {
      var n := |visiting| - 1;
      if w == |visiting| {
        VisitOffStack(g, visited, visiting[..n], {}, n, item);
      } else {
        VisitOffStack(g, visited, visiting[..n], weak - {visiting[n]}, w, item);
      }
    }
  }

  lemma PushPath<K(!new)>(e: map<K, set<K>>, visiting: seq<K>, item: K)
    requires (visiting == [] || Path(e, visiting)) && ReachedBy(e, visiting, item)
    ensures Path(e, visiting + [item])
  {
    if visiting != [] {
      PathAppend(e, visiting, item);
    }
  }

  lemma {:induction false} OrderedIsClean<K(!new)>(g: Links<K>, visited: set<K>, order: seq<K>, item: K)
    requires OrderOk(g, visited, order) && item in visited
    ensures !Cyclic(Hard(g), item)
    decreases |order|
  {
    var n := |order| - 1;
    if order[n] != item {
      OrderedIsClean(g, visited - {order[n]}, order[..n], item);
    }
  }

  /** If no hard successor can reach a cycle, neither can the node. */
  lemma CleanNode<K(!new)>(g: Links<K>, item: K)
    requires item in g.adj
    requires forall n :: n in g.adj[item] || n in g.control[item] ==> !Cyclic(Hard(g), n)
    ensures !Cyclic(Hard(g), item)
  {
    if Cyclic(Hard(g), item) {
      var n := CyclicNext(Hard(g), item);
    }
  }

  lemma AppendOk<K(!new)>(g: Links<K>, visited: set<K>, order: seq<K>, item: K)
    requires OrderOk(g, visited, order) && Fits(g, visited, item)
    ensures OrderOk(g, visited + {item}, order + [item])
  {
    assert (order + [item])[..|order|] == order;
    assert visited + {item} - {item} == visited;
  }

  lemma PushHard<K(!new)>(g: Links<K>, visited: set<K>, visiting: seq<K>, item: K)
    requires StackOk(g, visited, visiting, {}, |visiting|) && ReachedBy(Hard(g), visiting, item)
    requires item in g.adj && item !in visiting && item !in visited
    ensures StackOk(g, visited, visiting + [item], {}, |visiting| + 1)
  {
    assert (visiting + [item])[..|visiting|] == visiting;
  }

  lemma PushWeak<K(!new)>(g: Links<K>, visited: set<K>, visiting: seq<K>, weak: set<K>, w: nat, item: K)
    requires StackOk(g, visited, visiting, weak, w) && ReachedBy(Every(g), visiting, item)
    requires item in g.adj && item !in visiting && item !in visited && item !in weak
    ensures StackOk(g, visited, visiting + [item], weak + {item}, w)
  {
    assert (visiting + [item])[..|visiting|] == visiting;
    assert weak + {item} - {item} == weak;
  }

  lemma PushOk<K(!new)>(g: Links<K>, visited: set<K>, order: seq<K>, visiting: seq<K>, weak: set<K>, item: K,
                        weakLink: bool)
    requires Consistent(g, visited, order, visiting, weak) && item in g.adj && item !in visiting && item !in visited
    requires ReachedBy(Every(g), visiting, item)
    requires !weakLink ==> weak == {} && ReachedBy(Hard(g), visiting, item)
    ensures Consistent(g, visited, order, visiting + [item], if weakLink then weak + {item} else weak)
    ensures weak + {item} - {item} == weak - {item} == weak
    ensures (visiting + [item])[..|visiting|] == visiting
    ensures |weak + {item}| == |weak| + 1
  {
    var w: nat :| StackOk(g, visited, visiting, weak, w) && OrderOk(g, visited, order);
    WeakSuffix(g, visited, visiting, weak, w);
    if weakLink {
      PushWeak(g, visited, visiting, weak, w, item);
    } else {
      PushHard(g, visited, visiting, item);
    }
  }

  /** Taking the item on top off the stack again. */
  lemma PopOk<K(!new)>(g: Links<K>, visited: set<K>, order: seq<K>, visiting: seq<K>, weak: set<K>)
    requires Consistent(g, visited, order, visiting, weak) && visiting != []
    ensures Consistent(g, visited, order, visiting[..|visiting| - 1], weak - {visiting[|visiting| - 1]})
  {
    var w: nat :| StackOk(g, visited, visiting, weak, w) && OrderOk(g, visited, order);
    var n := |visiting| - 1;
    if w == |visiting| {
      assert weak - {visiting[n]} == {};
      assert StackOk(g, visited, visiting[..n], {}, n);
    } else {
      assert StackOk(g, visited, visiting[..n], weak - {visiting[n]}, w);
    }
  }

  /** Finishing the item on top of the stack. */
  lemma FinishOk<K(!new)>(g: Links<K>, visited: set<K>, order: seq<K>, visiting: seq<K>, weak: set<K>, item: K)
    requires Consistent(g, visited, order, visiting, weak) && visiting != [] && item == visiting[|visiting| - 1]
    requires Fits(g, visited, item)
    ensures Consistent(g, visited + {item}, order + [item], visiting[..|visiting| - 1], weak - {item})
  {
    PopOk(g, visited, order, visiting, weak);
    TopOfStack(g, visited, order, visiting, weak);
    OrderedOk(g, visited, order, visiting[..|visiting| - 1], weak - {item}, item);
  }

  /** Putting an item off the stack in the order. */
  lemma OrderedOk<K(!new)>(g: Links<K>, visited: set<K>, order: seq<K>, visiting: seq<K>, weak: set<K>, item: K)
    requires Consistent(g, visited, order, visiting, weak) && item !in visiting && Fits(g, visited, item)
    ensures Consistent(g, visited + {item}, order + [item], visiting, weak)
  {
    var w: nat :| StackOk(g, visited, visiting, weak, w) && OrderOk(g, visited, order);
    VisitOffStack(g, visited, visiting, weak, w, item);
    AppendOk(g, visited, order, item);
  }

  lemma ComesBackAt<K>(e: map<K, set<K>>, visiting: seq<K>, i: nat)
    requires i < |visiting| && Path(e, visiting) && Edge(e, visiting[|visiting| - 1], visiting[i])
    ensures ComesBack(e, CycleError(visiting[i], visiting[..i] + visiting[i + 1..]), i)
  {
    var path := visiting[..i] + visiting[i + 1..];
    PathAppend(e, visiting, visiting[i]);
    assert path[..i] + [visiting[i]] + path[i..] == visiting;
  }

  /** The error raised on meeting an item of the stack again. */
  lemma RaisedOk<K(!new)>(e: map<K, set<K>>, visiting: seq<K>, item: K)
    requires Distinct(visiting) && Path(e, visiting) && item in visiting && Edge(e, visiting[|visiting| - 1], item)
    ensures Cyclic(e, item) && ErrorOk(e, CycleError(item, Without(visiting, item)))
  {
    var i :| 0 <= i < |visiting| && visiting[i] == item;
    BackEdge(e, visiting, i);
    WithoutAt(visiting, i);
    ComesBackAt(e, visiting, i);
    var n := |visiting| - 1;
    if i == n {
      assert n > 0 ==> Edge(e, visiting[n - 1], visiting[n]);
    }
  }

  lemma MetAgain<K(!new)>(g: Links<K>, visited: set<K>, order: seq<K>, visiting: seq<K>, weak: set<K>, item: K,
                          weakLink: bool)
    requires Consistent(g, visited, order, visiting, weak) && item in visiting && ReachedBy(Every(g), visiting, item)
    requires !weakLink ==> weak == {} && ReachedBy(Hard(g), visiting, item)
    ensures Cyclic(Every(g), item)
    ensures !weakLink ==> Cyclic(Hard(g), item) && ErrorOk(Hard(g), CycleError(item, Without(visiting, item)))
  {
    var w: nat :| StackOk(g, visited, visiting, weak, w) && OrderOk(g, visited, order);
    StackIsPath(g, visited, visiting, weak, w);
    RaisedOk(Every(g), visiting, item);
    if !weakLink {
      WeakSuffix(g, visited, visiting, weak, w);
      RaisedOk(Hard(g), visiting, item);
    }
  }

  /** Only so many items fit on the stack. */
  lemma StackHasRoom<K(!new)>(g: Links<K>, visited: set<K>, order: seq<K>, visiting: seq<K>, weak: set<K>, item: K)
    requires Consistent(g, visited, order, visiting, weak) && item in g.adj && item !in visiting
    ensures |visiting| < |g.adj|
  {
    var w: nat :| StackOk(g, visited, visiting, weak, w) && OrderOk(g, visited, order);
    StackInGraph(g, visited, visiting, weak, w);
    StackFits(g, visited, visiting, weak, w, g.adj.Keys - {item});
  }

  lemma {:induction false} StackFits<K(!new)>(g: Links<K>, visited: set<K>, visiting: seq<K>, weak: set<K>, w: nat,
                                              keys: set<K>)
    requires StackOk(g, visited, visiting, weak, w) && forall x :: x in visiting ==> x in keys
    ensures |visiting| <= |keys|
    decreases |visiting|
  {
    if visiting == [] {
    } else {
      var n := |visiting| - 1;
      if w == |visiting| {
        StackFits(g, visited, visiting[..n], {}, n, keys - {visiting[n]});
      } else {
        StackFits(g, visited, visiting[..n], weak - {visiting[n]}, w, keys - {visiting[n]});
      }
    }
  }

  lemma {:induction false} StackInGraph<K(!new)>(g: Links<K>, visited: set<K>, visiting: seq<K>, weak: set<K>, w: nat)
    requires StackOk(g, visited, visiting, weak, w)
    ensures forall x :: x in visiting ==> x in g.adj
    decreases |visiting|
  {
    if visiting == [] {
    } else {
      var n := |visiting| - 1;
      if w == |visiting| {
        StackInGraph(g, visited, visiting[..n], {}, n);
      } else {
        StackInGraph(g, visited, visiting[..n], weak - {visiting[n]}, w);
      }
    }
  }

  lemma VisitedIsClean<K(!new)>(g: Links<K>, visited: set<K>, order: seq<K>, visiting: seq<K>, weak: set<K>, item: K)
    requires Consistent(g, visited, order, visiting, weak) && item in visited
    ensures !Cyclic(Hard(g), item)
  {
    OrderedIsClean(g, visited, order, item);
  }

  lemma TopOfStack<K(!new)>(g: Links<K>, visited: set<K>, order: seq<K>, visiting: seq<K>, weak: set<K>)
    requires Consistent(g, visited, order, visiting, weak) && visiting != []
    ensures
      var n := |visiting| - 1;
      visiting[n] in g.adj && visiting[n] !in visited && visiting[n] !in visiting[..n]
  {
  }

  /** The nested function `visit` of sort_ex, with the variables it closes over. */
  class Visitor<K(==, !new)> {
    const g: Links<K>
    var visiting: seq<K>
    var visitingWeak: set<K>
    var visited: set<K>
    var order: seq<K>

    ghost predicate Valid()
      reads this
    {
      Consistent(g, visited, order, visiting, visitingWeak)
    }

    /** Visiting may add items to the order; it puts the stack back as it was. */
    twostate predicate OnlyGrew()
      reads this
    {
      && visiting == old(visiting)
      && visitingWeak == old(visitingWeak)
      && old(visited) <= visited
    }

    constructor (g: Links<K>)
      ensures this.g == g && Valid() && visiting == [] && order == [] && visitingWeak == {} && visited == {}
    {
      this.g := g;
      visiting, visitingWeak, visited, order := [], {}, {}, [];
      new;
      assert StackOk(g, visited, visiting, visitingWeak, 0);
    }

    /**
     A visit through a weak link while nothing is visited weakly is the root of a weak traversal: errors below
     it end there.
     */
    method Visit(item: K, forControl: bool, weakLink: bool) returns (err: Option<CycleError<K>>)
      requires Valid() && item in g.adj
      requires ReachedBy(Every(g), visiting, item)
      requires !weakLink ==> visitingWeak == {} && ReachedBy(Hard(g), visiting, item)
      modifies this
      ensures Valid() && OnlyGrew()
      ensures err.Some? ==> Cyclic(Every(g), item)
      ensures err.None? && !forControl ==> item in visited || (weakLink && visitingWeak == {} && Cyclic(Every(g), item))
      ensures err.None? && !(weakLink && visitingWeak == {}) ==> !Cyclic(Hard(g), item)
      ensures !weakLink && err.Some? ==> Cyclic(Hard(g), item) && ErrorOk(Hard(g), err.value)
      ensures weakLink && visitingWeak == {} && err.Some? ==> item in visiting
      ensures item in visiting ==> err == Some(CycleError(item, Without(visiting, item)))
      decreases |g.adj| - |visiting|, 1
    {
      if item in visiting {
        MetAgain(g, visited, order, visiting, visitingWeak, item, weakLink);
        return Some(CycleError(item, Without(visiting, item)));
      }
      if item in visited {
        VisitedIsClean(g, visited, order, visiting, visitingWeak, item);
        return None;
      }
      err := Enter(item, forControl, weakLink);
    }

    /**
     The rest of a visit: put the item on the stack, follow its links, swallow an error at a weak root, take it off.
     */
    method Enter(item: K, forControl: bool, weakLink: bool) returns (err: Option<CycleError<K>>)
      requires Valid() && item in g.adj && item !in visiting && item !in visited
      requires ReachedBy(Every(g), visiting, item)
      requires !weakLink ==> visitingWeak == {} && ReachedBy(Hard(g), visiting, item)
      modifies this
      ensures Valid() && OnlyGrew()
      ensures err.Some? ==> Cyclic(Every(g), item) && !(weakLink && visitingWeak == {})
      ensures err.None? && !forControl ==> item in visited || (weakLink && visitingWeak == {} && Cyclic(Every(g), item))
      ensures err.None? && !(weakLink && visitingWeak == {}) ==> !Cyclic(Hard(g), item)
      ensures !weakLink && err.Some? ==> Cyclic(Hard(g), item) && ErrorOk(Hard(g), err.value)
      decreases |g.adj| - |visiting|, 0
    {
      PushOk(g, visited, order, visiting, visitingWeak, item, weakLink);
      StackHasRoom(g, visited, order, visiting, visitingWeak, item);
      visiting := visiting + [item];
      if weakLink {
        visitingWeak := visitingWeak + {item};
      }
      err := Follow(item, forControl, weakLink);
      if err.Some? && |visitingWeak| == 1 {
        err := None;
      }
      visiting := visiting[..|visiting| - 1];
      if weakLink {
        visitingWeak := visitingWeak - {item};
      }
    }

    /** The body of the try block: follow all links of the item on top of the stack, then put it in the order. */
    method Follow(item: K, forControl: bool, weakLink: bool) returns (err: Option<CycleError<K>>)
      requires Valid() && visiting != [] && item == visiting[|visiting| - 1]
      requires if weakLink then item in visitingWeak else visitingWeak == {}
      modifies this
      ensures OnlyGrew() && Consistent(g, visited, order, visiting[..|visiting| - 1], visitingWeak - {item})
      ensures err.None? && !forControl ==> item in visited
      ensures err.None? ==> !Cyclic(Hard(g), item)
      ensures err.Some? ==> Cyclic(Every(g), item)
      ensures !weakLink && err.Some? ==> Cyclic(Hard(g), item) && ErrorOk(Hard(g), err.value)
      decreases |g.adj| - |visiting|, 4
    {
      TopOfStack(g, visited, order, visiting, visitingWeak);
      err := FollowLinks(item, weakLink);
      if err.None? && !forControl {
        PutInOrder(item);
      } else {
        PopOk(g, visited, order, visiting, visitingWeak);
      }
    }

    method PutInOrder(item: K)
      requires Valid() && visiting != [] && item == visiting[|visiting| - 1] && Fits(g, visited, item)
      modifies this`order, this`visited
      ensures Consistent(g, visited, order, visiting[..|visiting| - 1], visitingWeak - {item})
      ensures visited == old(visited) + {item} && order == old(order) + [item]
    {
      FinishOk(g, visited, order, visiting, visitingWeak, item);
      order := order + [item];
      visited := visited + {item};
    }

    method FollowLinks(item: K, weakLink: bool) returns (err: Option<CycleError<K>>)
      requires Valid() && visiting != [] && item == visiting[|visiting| - 1] && item in g.adj
      requires if weakLink then item in visitingWeak else visitingWeak == {}
      modifies this
      ensures Valid() && OnlyGrew()
      ensures err.None? ==> Fits(g, visited, item)
      ensures err.Some? ==> Cyclic(Every(g), item)
      ensures !weakLink && err.Some? ==> Cyclic(Hard(g), item) && ErrorOk(Hard(g), err.value)
      decreases |g.adj| - |visiting|, 3
    {
      err := FollowWeak(item, weakLink);
      if err.None? {
        err := FollowStrong(item, g.adj[item], false, weakLink);
      }
      if err.None? {
        err := FollowStrong(item, g.control[item], true, weakLink);
      }
      if err.None? {
        CleanNode(g, item);
        TopOfStack(g, visited, order, visiting, visitingWeak);
      }
    }

    method FollowWeak(item: K, weakLink: bool) returns (err: Option<CycleError<K>>)
      requires Valid() && visiting != [] && item == visiting[|visiting| - 1] && item in g.adj
      requires if weakLink then item in visitingWeak else visitingWeak == {}
      modifies this
      ensures Valid() && OnlyGrew()
      ensures err.Some? ==> weakLink && Cyclic(Every(g), item)
      ensures err.None? ==> forall n :: n in g.weakAdj[item] ==> n in visited || Cyclic(Every(g), n)
      decreases |g.adj| - |visiting|, 2
    {
      for i := 0 to |g.weakAdj[item]|
        invariant Valid() && OnlyGrew()
        invariant forall j :: 0 <= j < i ==> g.weakAdj[item][j] in visited || Cyclic(Every(g), g.weakAdj[item][j])
      {
        var n := g.weakAdj[item][i];
        err := Visit(n, false, true);
        if err.Some? && |visitingWeak| != 0 {
          CyclicStep(Every(g), item, n);
          return;
        }
      }
      err := None;
    }

    /** Follow dependencies and merges, or loop-control links. */
    method FollowStrong(item: K, links: seq<K>, forControl: bool, weakLink: bool) returns (err: Option<CycleError<K>>)
      requires Valid() && visiting != [] && item == visiting[|visiting| - 1] && item in g.adj
      requires if weakLink then item in visitingWeak else visitingWeak == {}
      requires links == if forControl then g.control[item] else g.adj[item]
      modifies this
      ensures Valid() && OnlyGrew()
      ensures err.Some? ==> Cyclic(Every(g), item)
      ensures !weakLink && err.Some? ==> Cyclic(Hard(g), item) && ErrorOk(Hard(g), err.value)
      ensures err.None? ==> forall n :: n in links ==> !Cyclic(Hard(g), n) && (forControl || n in visited)
      decreases |g.adj| - |visiting|, 2
    {
      for i := 0 to |links|
        invariant Valid() && OnlyGrew()
        invariant forall j :: 0 <= j < i ==> !Cyclic(Hard(g), links[j]) && (forControl || links[j] in visited)
      {
        var n := links[i];
        err := Visit(n, forControl, weakLink);
        if err.Some? {
          CyclicStep(Every(g), item, n);
          if !weakLink {
            CyclicStep(Hard(g), item, n);
          }
          return;
        }
      }
      err := None;
    }
  }
}
