/**
 Desugaring of GROUP queries (edb/edgeql/desugar_group.py): pointers used directly in BY become generated USING
 bindings.  The meaning of BY is the list of grouping sets it stands for, as in edb/tools/toy_eval_model.py.
 */
module GroupDesugar {
  import opened Results
  import opened Aliases

  datatype PtrType = Plain | Optional | LinkProperty

  /** A name bound by USING, a single-step path, or a parenthesized list. */
  datatype Atom = Ref(name: string) | Path(ptr: string, kind: PtrType) | IdentList(elements: seq<Atom>)

  datatype Operator = Cube | Rollup

  datatype Element = Simple(element: Atom) | Sets(sets: seq<Element>) | Operation(oper: Operator, atoms: seq<Atom>)

  // ---------------------------------------------------------------- what BY stands for

  /** The names and paths of an atom, left to right. */
  function Leaves(a: Atom): (r: seq<Atom>)
    ensures forall l :: l in r ==> !l.IdentList?
    decreases a
  {
    if a.IdentList? then LeavesOf(a.elements) else [a]
  }

  function LeavesOf(s: seq<Atom>): (r: seq<Atom>)
    ensures forall l :: l in r ==> !l.IdentList?
    decreases s
  {
    if s == [] then [] else Leaves(s[0]) + LeavesOf(s[1..])
  }

  /** Put `x` in front of every set. */
  function Prepend(x: seq<Atom>, sets: seq<seq<Atom>>): seq<seq<Atom>> {
    if sets == [] then [] else [x + sets[0]] + Prepend(x, sets[1..])
  }

  /** All selections of the given atoms. */
  function CubeOf(s: seq<Atom>): seq<seq<Atom>> {
    if s == [] then [[]] else CubeOf(s[1..]) + Prepend(Leaves(s[0]), CubeOf(s[1..]))
  }

  /** All initial parts of the given atoms. */
  function RollupOf(s: seq<Atom>): seq<seq<Atom>> {
    if s == [] then [[]] else [[]] + Prepend(Leaves(s[0]), RollupOf(s[1..]))
  }

  function SetsOf(e: Element): seq<seq<Atom>>
    decreases e
  {
    match e
    case Simple(a) => [Leaves(a)]
    case Sets(s) => UnionOf(s)
    case Operation(oper, atoms) => if oper.Cube? then CubeOf(atoms) else RollupOf(atoms)
  }

  function UnionOf(s: seq<Element>): seq<seq<Atom>>
    decreases s
  {
    if s == [] then [] else SetsOf(s[0]) + UnionOf(s[1..])
  }

  /** One set from each of two lists, joined, in all combinations. */
  function Cross(a: seq<seq<Atom>>, b: seq<seq<Atom>>): seq<seq<Atom>> {
    if a == [] then [] else Prepend(a[0], b) + Cross(a[1..], b)
  }

  /** The grouping sets of a BY clause. */
  function GroupingSets(clause: seq<Element>): seq<seq<Atom>> {
    if clause == [] then [[]] else Cross(SetsOf(clause[0]), GroupingSets(clause[1..]))
  }

  // ---------------------------------------------------------------- which sets these are

  /** `x` is `y` followed by one of the sets. */
  ghost predicate StartsWith(x: seq<Atom>, y: seq<Atom>, sets: seq<seq<Atom>>) {
    exists z :: z in sets && x == y + z
  }

  lemma {:induction false} PrependAll(y: seq<Atom>, sets: seq<seq<Atom>>, x: seq<Atom>)
    ensures |Prepend(y, sets)| == |sets|
    ensures x in Prepend(y, sets) <==> StartsWith(x, y, sets)
  {
    if sets == [] {
    } else {
      PrependAll(y, sets[1..], x);
      assert sets == [sets[0]] + sets[1..];
    }
  }

  /** What a selection picks from the atoms. */
  function Picked(s: seq<Atom>, pick: seq<bool>): seq<Atom>
    requires |pick| == |s|
  {
    if s == [] then [] else (if pick[0] then Leaves(s[0]) else []) + Picked(s[1..], pick[1..])
  }

  ghost predicate IsSelection(s: seq<Atom>, x: seq<Atom>) {
    exists pick :: |pick| == |s| && x == Picked(s, pick)
  }

  lemma SelectionNext(s: seq<Atom>, x: seq<Atom>, y: seq<Atom>)
    requires s != [] && IsSelection(s[1..], y) && (x == y || x == Leaves(s[0]) + y)
    ensures IsSelection(s, x)
  {
    var pick :| |pick| == |s[1..]| && y == Picked(s[1..], pick);
    var (p, q) := ([false] + pick, [true] + pick);
    assert p[1..] == pick && q[1..] == pick;
    assert Picked(s, p) == [] + y && Picked(s, q) == Leaves(s[0]) + y;
    assert [] + y == y;
  }

  lemma SelectionSplits(s: seq<Atom>, x: seq<Atom>) returns (y: seq<Atom>)
    requires s != [] && IsSelection(s, x)
    ensures IsSelection(s[1..], y) && (x == y || x == Leaves(s[0]) + y)
  {
    var pick :| |pick| == |s| && x == Picked(s, pick);
    y := Picked(s[1..], pick[1..]);
    assert [] + y == y;
  }

  ghost function Power2(n: nat): nat {
    if n == 0 then 1 else 2 * Power2(n - 1)
  }

  lemma {:induction false} CubeHas(s: seq<Atom>, x: seq<Atom>)
    ensures |CubeOf(s)| == Power2(|s|)
    ensures x in CubeOf(s) <==> IsSelection(s, x)
  {
    if s == [] {
      assert Picked(s, []) == [];
    } else {
      var (rest, first) := (CubeOf(s[1..]), Leaves(s[0]));
      CubeHas(s[1..], x);
      PrependAll(first, rest, x);
      if x in CubeOf(s) {
        if x in rest {
          SelectionNext(s, x, x);
        } else {
          var z :| z in rest && x == first + z;
          CubeHas(s[1..], z);
          SelectionNext(s, x, z);
        }
      }
      if IsSelection(s, x) {
        var y := SelectionSplits(s, x);
        CubeHas(s[1..], y);
      }
    }
  }

  /** CUBE stands for all selections of its elements, one set for each. */
  lemma CubeIsAllSelections(s: seq<Atom>, x: seq<Atom>)
    ensures |SetsOf(Operation(Cube, s))| == Power2(|s|)
    ensures x in SetsOf(Operation(Cube, s)) <==> IsSelection(s, x)
  {
    CubeHas(s, x);
  }

  lemma {:induction false} PrependAt(y: seq<Atom>, sets: seq<seq<Atom>>, i: nat)
    requires i < |sets|
    ensures |Prepend(y, sets)| == |sets| && Prepend(y, sets)[i] == y + sets[i]
  {
    if i == 0 {
      PrependAll(y, sets, y + sets[0]);
    } else {
      PrependAt(y, sets[1..], i - 1);
    }
  }

  lemma {:induction false} RollupAt(s: seq<Atom>, i: nat)
    requires i <= |s|
    ensures |RollupOf(s)| == |s| + 1 && RollupOf(s)[i] == LeavesOf(s[..i])
  {
    if s == [] {
    } else if i == 0 {
      RollupAt(s[1..], 0);
      PrependAt(Leaves(s[0]), RollupOf(s[1..]), 0);
    } else {
      RollupAt(s[1..], i - 1);
      PrependAt(Leaves(s[0]), RollupOf(s[1..]), i - 1);
      assert s[..i][1..] == s[1..][..i - 1];
    }
  }

  /** ROLLUP stands for the initial parts of its elements, from the empty one to all. */
  lemma RollupIsPrefixes(s: seq<Atom>, i: nat)
    requires i <= |s|
    ensures
      var sets := SetsOf(Operation(Rollup, s));
      |sets| == |s| + 1 && sets[i] == LeavesOf(s[..i])
  {
    RollupAt(s, i);
  }

  ghost predicate IsPair(a: seq<seq<Atom>>, b: seq<seq<Atom>>, x: seq<Atom>) {
    exists y, z :: y in a && z in b && x == y + z
  }

  lemma {:induction false} CrossSize(a: seq<seq<Atom>>, b: seq<seq<Atom>>)
    ensures |Cross(a, b)| == |a| * |b|
  {
    if a == [] {
    } else {
      PrependAll(a[0], b, []);
      CrossSize(a[1..], b);
      assert |a| * |b| == |b| + |a[1..]| * |b|;
    }
  }

  lemma {:induction false} CrossIsProduct(a: seq<seq<Atom>>, b: seq<seq<Atom>>, x: seq<Atom>)
    ensures x in Cross(a, b) <==> IsPair(a, b, x)
  {
    if a == [] {
    } else {
      PrependAll(a[0], b, x);
      CrossIsProduct(a[1..], b, x);
      PairSplits(a, b, x);
    }
  }

  lemma PairSplits(a: seq<seq<Atom>>, b: seq<seq<Atom>>, x: seq<Atom>)
    requires a != []
    ensures IsPair(a, b, x) <==> StartsWith(x, a[0], b) || IsPair(a[1..], b, x)
  {
    assert a == [a[0]] + a[1..];
    if IsPair(a, b, x) {
      var y, z :| y in a && z in b && x == y + z;
    }
    if StartsWith(x, a[0], b) {
      var z :| z in b && x == a[0] + z;
      assert a[0] in a;
    }
  }

  /** One set of each element of BY, chosen in all ways and joined. */
  ghost predicate IsChoice(clause: seq<Element>, x: seq<Atom>) {
    if clause == [] then x == []
    else exists y, z :: y in SetsOf(clause[0]) && IsChoice(clause[1..], z) && x == y + z
  }

  lemma {:induction false} GroupingSetsAreChoices(clause: seq<Element>, x: seq<Atom>)
    ensures x in GroupingSets(clause) <==> IsChoice(clause, x)
  {
    if clause == [] {
    } else {
      CrossIsProduct(SetsOf(clause[0]), GroupingSets(clause[1..]), x);
      forall z ensures z in GroupingSets(clause[1..]) <==> IsChoice(clause[1..], z) {
        GroupingSetsAreChoices(clause[1..], z);
      }
    }
  }

  ghost predicate InSome(s: seq<Element>, x: seq<Atom>) {
    exists e :: e in s && x in SetsOf(e)
  }

  lemma {:induction false} UnionHas(s: seq<Element>, x: seq<Atom>)
    ensures x in UnionOf(s) <==> InSome(s, x)
    decreases |s|
  {
    if s == [] {
    } else {
      UnionHas(s[1..], x);
      assert s == [s[0]] + s[1..];
      if InSome(s, x) {
        var e :| e in s && x in SetsOf(e);
        assert e != s[0] ==> e in s[1..];
      }
      if InSome(s[1..], x) {
        var e :| e in s[1..] && x in SetsOf(e);
        assert e in s;
      }
      if x in SetsOf(s[0]) {
        assert s[0] in s;
      }
    }
  }

  /** GROUPING SETS stands for the sets of each of its members. */
  lemma SetsAreUnion(s: seq<Element>, x: seq<Atom>)
    ensures x in SetsOf(Sets(s)) <==> InSome(s, x)
  {
    UnionHas(s, x);
  }

  // ---------------------------------------------------------------- renaming

  /** What the alias map records for a pointer name. */
  datatype Bound = Bound(alias: string, kind: PtrType)

  type AliasMap = map<string, Bound>

  function RenameLeaf(l: Atom, m: AliasMap): Atom {
    if l.Path? && l.ptr in m then Ref(m[l.ptr].alias) else l
  }

  function RenameAtom(a: Atom, m: AliasMap): Atom
    decreases a
  {
    if a.IdentList? then IdentList(RenameAtoms(a.elements, m)) else RenameLeaf(a, m)
  }

  function RenameAtoms(s: seq<Atom>, m: AliasMap): seq<Atom>
    decreases s
  {
    if s == [] then [] else [RenameAtom(s[0], m)] + RenameAtoms(s[1..], m)
  }

  function RenameElement(e: Element, m: AliasMap): Element
    decreases e
  {
    match e
    case Simple(a) => Simple(RenameAtom(a, m))
    case Sets(s) => Sets(RenameElements(s, m))
    case Operation(oper, atoms) => Operation(oper, RenameAtoms(atoms, m))
  }

  function RenameElements(s: seq<Element>, m: AliasMap): seq<Element>
    decreases s
  {
    if s == [] then [] else [RenameElement(s[0], m)] + RenameElements(s[1..], m)
  }

  /** The same renaming applied to lists and sets of leaves. */
  function RenameLeaves(s: seq<Atom>, m: AliasMap): (r: seq<Atom>)
    ensures |r| == |s| && forall i :: 0 <= i < |s| ==> r[i] == RenameLeaf(s[i], m)
  {
    if s == [] then [] else [RenameLeaf(s[0], m)] + RenameLeaves(s[1..], m)
  }

  function RenameSets(s: seq<seq<Atom>>, m: AliasMap): (r: seq<seq<Atom>>)
    ensures |r| == |s| && forall i :: 0 <= i < |s| ==> r[i] == RenameLeaves(s[i], m)
  {
    if s == [] then [] else [RenameLeaves(s[0], m)] + RenameSets(s[1..], m)
  }

  lemma RenameLeavesConcat(a: seq<Atom>, b: seq<Atom>, m: AliasMap)
    ensures RenameLeaves(a + b, m) == RenameLeaves(a, m) + RenameLeaves(b, m)
  {
  }

  lemma RenameSetsConcat(a: seq<seq<Atom>>, b: seq<seq<Atom>>, m: AliasMap)
    ensures RenameSets(a + b, m) == RenameSets(a, m) + RenameSets(b, m)
  {
  }

  lemma {:induction false} RenamePrepend(x: seq<Atom>, sets: seq<seq<Atom>>, m: AliasMap)
    ensures RenameSets(Prepend(x, sets), m) == Prepend(RenameLeaves(x, m), RenameSets(sets, m))
  {
    if sets == [] {
    } else {
      RenamePrepend(x, sets[1..], m);
      RenameLeavesConcat(x, sets[0], m);
      RenameSetsConcat([x + sets[0]], Prepend(x, sets[1..]), m);
      assert RenameSets(sets, m)[1..] == RenameSets(sets[1..], m);
    }
  }

  lemma {:induction false} LeavesRenamed(a: Atom, m: AliasMap)
    ensures Leaves(RenameAtom(a, m)) == RenameLeaves(Leaves(a), m)
    decreases a
  {
    if a.IdentList? {
      LeavesOfRenamed(a.elements, m);
    }
  }

  lemma {:induction false} LeavesOfRenamed(s: seq<Atom>, m: AliasMap)
    ensures LeavesOf(RenameAtoms(s, m)) == RenameLeaves(LeavesOf(s), m)
    decreases s
  {
    if s == [] {
    } else {
      LeavesRenamed(s[0], m);
      LeavesOfRenamed(s[1..], m);
      RenameLeavesConcat(Leaves(s[0]), LeavesOf(s[1..]), m);
      assert RenameAtoms(s, m)[1..] == RenameAtoms(s[1..], m);
    }
  }

  lemma {:induction false} CubeRenamed(s: seq<Atom>, m: AliasMap)
    ensures CubeOf(RenameAtoms(s, m)) == RenameSets(CubeOf(s), m)
  {
    if s == [] {
    } else {
      CubeRenamed(s[1..], m);
      LeavesRenamed(s[0], m);
      RenamePrepend(Leaves(s[0]), CubeOf(s[1..]), m);
      RenameSetsConcat(CubeOf(s[1..]), Prepend(Leaves(s[0]), CubeOf(s[1..])), m);
      assert RenameAtoms(s, m)[1..] == RenameAtoms(s[1..], m);
    }
  }

  lemma {:induction false} RollupRenamed(s: seq<Atom>, m: AliasMap)
    ensures RollupOf(RenameAtoms(s, m)) == RenameSets(RollupOf(s), m)
  {
    if s == [] {
    } else {
      RollupRenamed(s[1..], m);
      LeavesRenamed(s[0], m);
      RenamePrepend(Leaves(s[0]), RollupOf(s[1..]), m);
      RenameSetsConcat([[]], Prepend(Leaves(s[0]), RollupOf(s[1..])), m);
      assert RenameAtoms(s, m)[1..] == RenameAtoms(s[1..], m);
    }
  }

  lemma {:induction false} SetsRenamed(e: Element, m: AliasMap)
    ensures SetsOf(RenameElement(e, m)) == RenameSets(SetsOf(e), m)
    decreases e
  {
    match e
    case Simple(a) => LeavesRenamed(a, m);
    case Sets(s) => UnionRenamed(s, m);
    case Operation(oper, atoms) =>
      CubeRenamed(atoms, m);
      RollupRenamed(atoms, m);
  }

  lemma {:induction false} UnionRenamed(s: seq<Element>, m: AliasMap)
    ensures UnionOf(RenameElements(s, m)) == RenameSets(UnionOf(s), m)
    decreases s
  {
    if s == [] {
    } else {
      SetsRenamed(s[0], m);
      UnionRenamed(s[1..], m);
      RenameSetsConcat(SetsOf(s[0]), UnionOf(s[1..]), m);
      assert RenameElements(s, m)[1..] == RenameElements(s[1..], m);
    }
  }

  lemma {:induction false} CrossRenamed(a: seq<seq<Atom>>, b: seq<seq<Atom>>, m: AliasMap)
    ensures Cross(RenameSets(a, m), RenameSets(b, m)) == RenameSets(Cross(a, b), m)
  {
    if a == [] {
    } else {
      CrossRenamed(a[1..], b, m);
      RenamePrepend(a[0], b, m);
      RenameSetsConcat(Prepend(a[0], b), Cross(a[1..], b), m);
      assert RenameSets(a, m)[1..] == RenameSets(a[1..], m);
    }
  }

  /** Renaming the leaves of BY renames the grouping sets it stands for, and changes nothing else about them. */
  lemma {:induction false} GroupingSetsRenamed(clause: seq<Element>, m: AliasMap)
    ensures GroupingSets(RenameElements(clause, m)) == RenameSets(GroupingSets(clause), m)
  {
    if clause == [] {
    } else {
      SetsRenamed(clause[0], m);
      GroupingSetsRenamed(clause[1..], m);
      CrossRenamed(SetsOf(clause[0]), GroupingSets(clause[1..]), m);
      assert RenameElements(clause, m)[1..] == RenameElements(clause[1..], m);
    }
  }

  // ---------------------------------------------------------------- the leaves of BY

  function ElementLeaves(e: Element): (r: seq<Atom>)
    ensures forall l :: l in r ==> !l.IdentList?
    decreases e
  {
    match e
    case Simple(a) => Leaves(a)
    case Sets(s) => ClauseLeaves(s)
    case Operation(_, atoms) => LeavesOf(atoms)
  }

  function ClauseLeaves(s: seq<Element>): (r: seq<Atom>)
    ensures forall l :: l in r ==> !l.IdentList?
    decreases s
  {
    if s == [] then [] else ElementLeaves(s[0]) + ClauseLeaves(s[1..])
  }

  /** Every path among the leaves is in the map, with the pointer type recorded there. */
  ghost predicate Covered(ls: seq<Atom>, m: AliasMap) {
    forall l :: l in ls && l.Path? ==> l.ptr in m && m[l.ptr].kind == l.kind
  }

  /** Some path has a pointer type other than the one recorded for its name. */
  ghost predicate Clash(ls: seq<Atom>, m: AliasMap) {
    exists l :: l in ls && l.Path? && l.ptr in m && m[l.ptr].kind != l.kind
  }

  ghost predicate Extends(m: AliasMap, m': AliasMap) {
    forall p :: p in m ==> p in m' && m'[p] == m[p]
  }

  /** The names added to the map are those of paths among the leaves. */
  ghost predicate AddedFrom(ls: seq<Atom>, m: AliasMap, m': AliasMap) {
    Extends(m, m') && forall p :: p in m' && p !in m ==> Path(p, m'[p].kind) in ls
  }

  lemma {:induction false} AtomStable(a: Atom, m: AliasMap, m': AliasMap)
    requires Covered(Leaves(a), m) && Extends(m, m')
    ensures RenameAtom(a, m) == RenameAtom(a, m')
    decreases a
  {
    if a.IdentList? {
      AtomsStable(a.elements, m, m');
    } else {
      assert a in Leaves(a);
    }
  }

  lemma {:induction false} AtomsStable(s: seq<Atom>, m: AliasMap, m': AliasMap)
    requires Covered(LeavesOf(s), m) && Extends(m, m')
    ensures RenameAtoms(s, m) == RenameAtoms(s, m')
    decreases s
  {
    if s == [] {
    } else {
      AtomStable(s[0], m, m');
      AtomsStable(s[1..], m, m');
    }
  }

  lemma {:induction false} ElementStable(e: Element, m: AliasMap, m': AliasMap)
    requires Covered(ElementLeaves(e), m) && Extends(m, m')
    ensures RenameElement(e, m) == RenameElement(e, m')
    decreases e
  {
    match e
    case Simple(a) => AtomStable(a, m, m');
    case Sets(s) => ElementsStable(s, m, m');
    case Operation(_, atoms) => AtomsStable(atoms, m, m');
  }

  lemma {:induction false} ElementsStable(s: seq<Element>, m: AliasMap, m': AliasMap)
    requires Covered(ClauseLeaves(s), m) && Extends(m, m')
    ensures RenameElements(s, m) == RenameElements(s, m')
    decreases s
  {
    if s == [] {
    } else {
      ElementStable(s[0], m, m');
      ElementsStable(s[1..], m, m');
    }
  }

  /** What a rewriting step may do to the alias map. */
  ghost predicate Step(ls: seq<Atom>, m: AliasMap, m': AliasMap, done: bool) {
    AddedFrom(ls, m, m') && if done then Covered(ls, m') else Clash(ls, m')
  }

  lemma StepsCompose(a: seq<Atom>, b: seq<Atom>, m: AliasMap, m1: AliasMap, m2: AliasMap, done: bool)
    requires Step(a, m, m1, true) && Step(b, m1, m2, done)
    ensures Step(a + b, m, m2, done)
  {
    if !done {
      var l :| l in b && l.Path? && l.ptr in m2 && m2[l.ptr].kind != l.kind;
      assert l in a + b;
    }
  }

  lemma StepFails(a: seq<Atom>, b: seq<Atom>, m: AliasMap, m': AliasMap)
    requires Step(a, m, m', false)
    ensures Step(a + b, m, m', false)
  {
    var l :| l in a && l.Path? && l.ptr in m' && m'[l.ptr].kind != l.kind;
    assert l in a + b;
  }

  /** Names of pointers in the order of their first use, after those in `order`. */
  function OrderAfter(order: seq<string>, ls: seq<Atom>): seq<string>
    decreases ls
  {
    if ls == [] then order
    else OrderAfter(if ls[0].Path? && ls[0].ptr !in order then order + [ls[0].ptr] else order, ls[1..])
  }

  lemma OrderAfterOne(order: seq<string>, l: Atom)
    ensures OrderAfter(order, [l]) == if l.Path? && l.ptr !in order then order + [l.ptr] else order
  {
    assert [l][1..] == [];
  }

  lemma {:induction false} OrderAfterConcat(order: seq<string>, a: seq<Atom>, b: seq<Atom>)
    ensures OrderAfter(order, a + b) == OrderAfter(OrderAfter(order, a), b)
    decreases a
  {
    if a == [] {
      assert a + b == b;
    } else {
      assert (a + b)[1..] == a[1..] + b;
      OrderAfterConcat(if a[0].Path? && a[0].ptr !in order then order + [a[0].ptr] else order, a[1..], b);
    }
  }

  /** The counters after aliases were made for the first `n` names. */
  ghost function CountsAfter(start: map<string, nat>, order: seq<string>, n: nat): map<string, nat>
    requires n <= |order|
  {
    if n == 0 then start else NextCounts(CountsAfter(start, order, n - 1), order[n - 1])
  }

  /** The name at position `i` has the alias that the generator makes when it comes to it. */
  ghost predicate NumberedAt(m: AliasMap, order: seq<string>, start: map<string, nat>, i: nat)
    requires i < |order|
  {
    order[i] in m && m[order[i]].alias == NextAlias(CountsAfter(start, order, i), order[i])
  }

  ghost predicate Numbered(m: AliasMap, order: seq<string>, start: map<string, nat>) {
    forall i :: 0 <= i < |order| ==> NumberedAt(m, order, start, i)
  }

  lemma {:induction false} CountsOfPrefix(start: map<string, nat>, order: seq<string>, p: string, n: nat)
    requires n <= |order|
    ensures CountsAfter(start, order + [p], n) == CountsAfter(start, order, n)
  {
    if n == 0 {
    } else {
      CountsOfPrefix(start, order, p, n - 1);
    }
  }

  lemma NumberedGrows(m: AliasMap, order: seq<string>, start: map<string, nat>, p: string, b: Bound)
    requires Numbered(m, order, start) && p !in order
    requires b.alias == NextAlias(CountsAfter(start, order, |order|), p)
    ensures Numbered(m[p := b], order + [p], start)
    ensures CountsAfter(start, order + [p], |order| + 1) == NextCounts(CountsAfter(start, order, |order|), p)
  {
    CountsOfPrefix(start, order, p, |order|);
    var (m', order') := (m[p := b], order + [p]);
    forall i | 0 <= i < |order'| ensures NumberedAt(m', order', start, i) {
      CountsOfPrefix(start, order, p, i);
      if i < |order| {
        assert NumberedAt(m, order, start, i) && order[i] in order;
      }
    }
  }

  // ---------------------------------------------------------------- rewriting

  /** `by_alias_map` in insertion order, with aliases that the generator had not issued before. */
  ghost predicate FreshMap(m: AliasMap, order: seq<string>, before: set<string>, issued: set<string>) {
    && (forall i, j :: 0 <= i < j < |order| ==> order[i] != order[j])
    && (forall p :: p in order <==> p in m)
    && (forall p, p' :: p in m && p' in m && p != p' ==> m[p].alias != m[p'].alias)
    && (forall p :: p in m ==> m[p].alias in issued && m[p].alias !in before && '~' in m[p].alias)
    && before <= issued
  }

  lemma FreshMapGrows(m: AliasMap, order: seq<string>, before: set<string>, issued: set<string>, p: string, b: Bound)
    requires FreshMap(m, order, before, issued)
    requires p !in m && b.alias !in issued && '~' in b.alias
    ensures FreshMap(m[p := b], order + [p], before, issued + {b.alias})
  {
  }

  /** The map and its order, given the state of the generator at the start and now. */
  ghost predicate Filled(m: AliasMap, order: seq<string>, before: set<string>, start: map<string, nat>,
                         issued: set<string>, counts: map<string, nat>) {
    && FreshMap(m, order, before, issued)
    && Numbered(m, order, start)
    && counts == CountsAfter(start, order, |order|)
  }

  lemma FilledGrows(m: AliasMap, order: seq<string>, before: set<string>, start: map<string, nat>,
                    issued: set<string>, counts: map<string, nat>, p: string, b: Bound)
    requires Filled(m, order, before, start, issued, counts)
    requires p !in m && b.alias == NextAlias(counts, p) && b.alias !in issued && '~' in b.alias
    ensures Filled(m[p := b], order + [p], before, start, issued + {b.alias}, NextCounts(counts, p))
  {
    FreshMapGrows(m, order, before, issued, p, b);
    NumberedGrows(m, order, start, p, b);
  }

  /** The nested functions `rewrite` and `rewrite_atom`, with the map they fill. */
  class Rewriter {
    const aliases: AliasGenerator
    ghost const before: set<string>
    ghost const start: map<string, nat>
    var byAliasMap: AliasMap
    var order: seq<string>

    ghost predicate Valid()
      reads this, aliases
    {
      && aliases.Valid()
      && Filled(byAliasMap, order, before, start, aliases.issued, aliases.counts)
    }

    constructor (aliases: AliasGenerator)
      requires aliases.Valid()
      ensures Valid() && this.aliases == aliases && before == aliases.issued && start == aliases.counts
      ensures byAliasMap == map[] && order == []
    {
      this.aliases := aliases;
      this.before := aliases.issued;
      this.start := aliases.counts;
      byAliasMap, order := map[], [];
    }

    method AddAlias(ptr: string, kind: PtrType) returns (alias: string)
      requires Valid() && ptr !in byAliasMap
      modifies this, aliases
      ensures Valid() && byAliasMap == old(byAliasMap)[ptr := Bound(alias, kind)] && order == old(order) + [ptr]
    {
      ghost var (issued, counts) := (aliases.issued, aliases.counts);
      alias := aliases.Get(ptr);
      FilledGrows(byAliasMap, order, before, start, issued, counts, ptr, Bound(alias, kind));
      byAliasMap := byAliasMap[ptr := Bound(alias, kind)];
      order := order + [ptr];
    }

    /** None is the QueryError about a link property and an object property with the same name. */
    method RewriteLeaf(el: Atom) returns (r: Option<Atom>)
      requires Valid() && !el.IdentList?
      modifies this, aliases
      ensures Valid() && Step([el], old(byAliasMap), byAliasMap, r.Some?)
      ensures r.Some? ==> r.value == RenameLeaf(el, byAliasMap) && order == OrderAfter(old(order), [el])
    {
      OrderAfterOne(order, el);
      if el.Ref? {
        return Some(el);
      }
      if el.ptr !in byAliasMap {
        var alias := AddAlias(el.ptr, el.kind);
        return Some(Ref(alias));
      }
      var bound := byAliasMap[el.ptr];
      if bound.kind != el.kind {
        assert el in [el];
        return None;
      }
      r := Some(Ref(bound.alias));
    }

    method RewriteAtom(el: Atom) returns (r: Option<Atom>)
      requires Valid()
      modifies this, aliases
      ensures Valid() && Step(Leaves(el), old(byAliasMap), byAliasMap, r.Some?)
      ensures r.Some? ==> r.value == RenameAtom(el, byAliasMap) && order == OrderAfter(old(order), Leaves(el))
      decreases el
    {
      if el.IdentList? {
        var elements := RewriteAtoms(el.elements);
        return if elements.Some? then Some(IdentList(elements.value)) else None;
      }
      r := RewriteLeaf(el);
    }

    method RewriteAtoms(s: seq<Atom>) returns (r: Option<seq<Atom>>)
      requires Valid()
      modifies this, aliases
      ensures Valid() && Step(LeavesOf(s), old(byAliasMap), byAliasMap, r.Some?)
      ensures r.Some? ==> r.value == RenameAtoms(s, byAliasMap) && order == OrderAfter(old(order), LeavesOf(s))
      decreases s
    {
      if s == [] {
        return Some([]);
      }
      var first := RewriteAtom(s[0]);
      if first.None? {
        StepFails(Leaves(s[0]), LeavesOf(s[1..]), old(byAliasMap), byAliasMap);
        return None;
      }
      ghost var mid := byAliasMap;
      var rest := RewriteAtoms(s[1..]);
      OrderAfterConcat(old(order), Leaves(s[0]), LeavesOf(s[1..]));
      StepsCompose(Leaves(s[0]), LeavesOf(s[1..]), old(byAliasMap), mid, byAliasMap, rest.Some?);
      AtomStable(s[0], mid, byAliasMap);
      r := if rest.Some? then Some([first.value] + rest.value) else None;
    }

    method Rewrite(e: Element) returns (r: Option<Element>)
      requires Valid()
      modifies this, aliases
      ensures Valid() && Step(ElementLeaves(e), old(byAliasMap), byAliasMap, r.Some?)
      ensures r.Some? ==> r.value == RenameElement(e, byAliasMap) && order == OrderAfter(old(order), ElementLeaves(e))
      decreases e
    {
      match e
      case Simple(a) =>
        var a' := RewriteAtom(a);
        r := if a'.Some? then Some(Simple(a'.value)) else None;
      case Sets(s) =>
        var s' := RewriteAll(s);
        r := if s'.Some? then Some(Sets(s'.value)) else None;
      case Operation(oper, atoms) =>
        var s' := RewriteAtoms(atoms);
        r := if s'.Some? then Some(Operation(oper, s'.value)) else None;
    }

    method RewriteAll(s: seq<Element>) returns (r: Option<seq<Element>>)
      requires Valid()
      modifies this, aliases
      ensures Valid() && Step(ClauseLeaves(s), old(byAliasMap), byAliasMap, r.Some?)
      ensures r.Some? ==> r.value == RenameElements(s, byAliasMap) && order == OrderAfter(old(order), ClauseLeaves(s))
      decreases s
    {
      if s == [] {
        return Some([]);
      }
      var first := Rewrite(s[0]);
      if first.None? {
        StepFails(ElementLeaves(s[0]), ClauseLeaves(s[1..]), old(byAliasMap), byAliasMap);
        return None;
      }
      ghost var mid := byAliasMap;
      var rest := RewriteAll(s[1..]);
      OrderAfterConcat(old(order), ElementLeaves(s[0]), ClauseLeaves(s[1..]));
      StepsCompose(ElementLeaves(s[0]), ClauseLeaves(s[1..]), old(byAliasMap), mid, byAliasMap, rest.Some?);
      ElementStable(s[0], mid, byAliasMap);
      r := if rest.Some? then Some([first.value] + rest.value) else None;
    }
  }
}
