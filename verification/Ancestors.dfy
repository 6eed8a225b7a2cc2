/**
 The ancestors of SDL types: `get_ancestors` (edb/edgeql/declarative.py), a recursion over the parents graph with a
 memo dictionary that also serves as recursion guard.  After a failure the guards stay in the dictionary.
 */
module Ancestors {
  import opened Results
  import opened Collections
  import opened Digraph

  type Name = string

  /** A value of the `ancestors` dictionary. */
  datatype Memo = Guard | Known(names: set<Name>)

  /** `names` is the transitive closure of the parents of `x`. */
  ghost predicate Closure(parents: map<Name, set<Name>>, x: Name, names: set<Name>) {
    forall y :: y in names <==> ReachesStrictly(parents, x, y)
  }

  ghost predicate MemoOk(parents: map<Name, set<Name>>, memo: map<Name, Memo>, stack: seq<Name>) {
    && (forall x :: x in memo && memo[x].Known? ==> Closure(parents, x, memo[x].names) && !Cyclic(parents, x))
    && (forall x :: x in memo && memo[x].Guard? ==> x in stack || Cyclic(parents, x))
    && (forall x :: x in stack ==> x in memo && memo[x].Guard?)
  }

  /** The names whose computation is under way form a path without repetition. */
  ghost predicate UnderWay(parents: map<Name, set<Name>>, stack: seq<Name>) {
    && Distinct(stack)
    && (stack == [] || Path(parents, stack))
    && forall x :: x in stack ==> x in parents
  }

  lemma {:induction false} DistinctFits(s: seq<Name>, keys: set<Name>)
    requires Distinct(s) && forall x :: x in s ==> x in keys
    ensures |s| <= |keys|
  {
    if s == [] {
    } else {
      var n := |s| - 1;
      DistinctFits(s[..n], keys - {s[n]});
    }
  }

  /** A type none of whose parents can reach a cycle cannot reach one either. */
  lemma NoCycle(parents: map<Name, set<Name>>, x: Name)
    requires forall y :: Edge(parents, x, y) ==> !Cyclic(parents, y)
    ensures !Cyclic(parents, x)
  {
    if Cyclic(parents, x) {
      var y := CyclicNext(parents, x);
    }
  }

  /** The ancestors of a type are its parents and their ancestors. */
  lemma ClosureStep(parents: map<Name, set<Name>>, x: Name, z: Name)
    ensures ReachesStrictly(parents, x, z) <==>
      exists y :: Edge(parents, x, y) && (z == y || ReachesStrictly(parents, y, z))
  {
    if ReachesStrictly(parents, x, z) {
      var y := ReachesFirst(parents, x, z);
      ReachesSplit(parents, y, z);
    }
    if y :| Edge(parents, x, y) && (z == y || ReachesStrictly(parents, y, z)) {
      ReachesSplit(parents, y, z);
      ReachesStep(parents, x, y, z);
    }
  }

  /** A computed value stays. */
  ghost predicate Kept(before: map<Name, Memo>, after: map<Name, Memo>) {
    forall x :: x in before && before[x].Known? ==> x in after && after[x].Known?
  }

  class AncestorMemo {
    const parents: map<Name, set<Name>>
    var ancestors: map<Name, Memo>

    /** Holds between calls: known values are final, and guards left behind mark types that reach a cycle. */
    ghost predicate Valid(stack: seq<Name>)
      reads this
    {
      MemoOk(parents, ancestors, stack)
    }

    constructor (parents: map<Name, set<Name>>)
      ensures this.parents == parents && Valid([])
    {
      this.parents := parents;
      ancestors := map[];
    }

    /** None is the InvalidDefinitionError for a recursive definition. */
    method GetAncestors(name: Name, ghost stack: seq<Name>) returns (r: Option<set<Name>>)
      requires Valid(stack) && UnderWay(parents, stack) && (stack == [] || Edge(parents, stack[|stack| - 1], name))
      modifies this
      ensures Valid(stack) && Kept(old(ancestors), ancestors)
      ensures r.None? <==> Cyclic(parents, name)
      ensures r.Some? ==> Closure(parents, name, r.value)
      decreases |parents| - |stack|, 1
    {
      var result := if name in ancestors then ancestors[name] else Known({});
      if result.Guard? {
        if name in stack {
          var i :| 0 <= i < |stack| && stack[i] == name;
          BackEdge(parents, stack, i);
        }
        return None;
      } else if result.names != {} {
        return Some(result.names);
      }
      ancestors := ancestors[name := Guard];
      if name !in parents {
        forall z ensures !ReachesStrictly(parents, name, z) {
          ClosureStep(parents, name, z);
        }
        NoCycle(parents, name);
        ancestors := ancestors[name := Known({})];
        return Some({});
      }
      r := FromParents(name, stack);
      if r.Some? {
        ancestors := ancestors[name := Known(r.value)];
      }
    }

    /** The parents and, recursively, their ancestors. */
    method FromParents(name: Name, ghost stack: seq<Name>) returns (r: Option<set<Name>>)
      requires Valid(stack + [name]) && UnderWay(parents, stack)
      requires stack == [] || Edge(parents, stack[|stack| - 1], name)
      requires name !in stack && name in parents
      modifies this
      ensures Valid(stack + [name]) && Kept(old(ancestors), ancestors)
      ensures r.None? <==> Cyclic(parents, name)
      ensures r.Some? ==> Closure(parents, name, r.value)
      decreases |parents| - |stack|, 0
    {
      ghost var stack' := stack + [name];
      if stack != [] {
        PathAppend(parents, stack, name);
      }
      DistinctFits(stack', parents.Keys);
      var result := parents[name];
      forall z | z in result ensures ReachesStrictly(parents, name, z) {
        ReachesSelf(parents, z);
        ReachesStep(parents, name, z, z);
      }
      var todo := parents[name];
      while todo != {}
        invariant Valid(stack') && Kept(old(ancestors), ancestors) && todo <= parents[name] <= result
        invariant forall y :: y in parents[name] - todo ==> !Cyclic(parents, y)
        invariant forall y, z :: y in parents[name] - todo && ReachesStrictly(parents, y, z) ==> z in result
        invariant forall z :: z in result ==> ReachesStrictly(parents, name, z)
        decreases |todo|
      {
        var parent :| parent in todo;
        todo := todo - {parent};
        var more := GetAncestors(parent, stack');
        if more.None? {
          CyclicStep(parents, name, parent);
          return None;
        }
        forall z | z in more.value ensures ReachesStrictly(parents, name, z) {
          ClosureStep(parents, name, z);
        }
        result := result + more.value;
      }
      NoCycle(parents, name);
      forall z ensures z in result <==> ReachesStrictly(parents, name, z) {
        ClosureStep(parents, name, z);
      }
      r := Some(result);
    }

    /** How SDL layout uses it: one memo for all types; the first error ends it. */
    method ComputeAll() returns (ok: bool)
      requires Valid([])
      modifies this
      ensures Valid([])
      ensures ok <==> forall x :: x in parents ==> !Cyclic(parents, x)
      ensures ok ==>
        forall x :: x in parents ==> x in ancestors && ancestors[x].Known? && Closure(parents, x, ancestors[x].names)
    {
      var todo := parents.Keys;
      while todo != {}
        invariant Valid([]) && todo <= parents.Keys
        invariant forall x :: x in parents && x !in todo ==>
          !Cyclic(parents, x) && x in ancestors && ancestors[x].Known?
        decreases |todo|
      {
        var name :| name in todo;
        var r := GetAncestors(name, []);
        if r.None? {
          return false;
        }
        ancestors := ancestors[name := Known(r.value)];
        todo := todo - {name};
      }
      ok := true;
    }
  }
}
