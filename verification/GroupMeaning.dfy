/**
 What `desugar_group` does to a whole GROUP query (edb/edgeql/desugar_group.py): USING clauses as environments, the
 method itself, and exactly when the rewritten query means the same.
 */
module GroupMeaning {
  import opened Results
  import opened Aliases
  import opened GroupDesugar

  /** A value; the rewriting never looks inside one. */
  type Value = int

  type Env = map<string, Value>

  /** A single-step path, or any other expression, known by the names that occur in it. */
  datatype Expr = PtrPath(ptr: string, kind: PtrType) | Fn(op: nat, args: seq<string>)

  datatype Using = Using(alias: string, expr: Expr)

  /** What paths and expressions evaluate to for one row of the subject. */
  datatype World = World(row: (string, PtrType) -> Value, fn: (nat, seq<Option<Value>>) -> Value)

  function Lookup(env: Env, n: string): Option<Value> {
    if n in env then Some(env[n]) else None
  }

  function Lookups(env: Env, names: seq<string>): (r: seq<Option<Value>>)
    ensures |r| == |names| && forall i :: 0 <= i < |r| ==> r[i] == Lookup(env, names[i])
  {
    if names == [] then [] else [Lookup(env, names[0])] + Lookups(env, names[1..])
  }

  function EvalExpr(w: World, e: Expr, env: Env): Value {
    match e
    case PtrPath(p, k) => w.row(p, k)
    case Fn(op, args) => w.fn(op, Lookups(env, args))
  }

  /** USING clauses bind from left to right. */
  function EvalUsing(w: World, us: seq<Using>, env: Env): Env {
    if us == [] then env else
    var (rest, u) := (EvalUsing(w, us[..|us| - 1], env), us[|us| - 1]);
    rest[u.alias := EvalExpr(w, u.expr, rest)]
  }

  function LeafValue(w: World, env: Env, l: Atom): Option<Value> {
    match l
    case Ref(n) => Lookup(env, n)
    case Path(p, k) => Some(w.row(p, k))
    case IdentList(_) => None
  }

  function Values(w: World, env: Env, ls: seq<Atom>): (r: seq<Option<Value>>)
    ensures |r| == |ls| && forall i :: 0 <= i < |r| ==> r[i] == LeafValue(w, env, ls[i])
  {
    if ls == [] then [] else [LeafValue(w, env, ls[0])] + Values(w, env, ls[1..])
  }

  function SetsValues(w: World, env: Env, sets: seq<seq<Atom>>): (r: seq<seq<Option<Value>>>)
    ensures |r| == |sets| && forall i :: 0 <= i < |r| ==> r[i] == Values(w, env, sets[i])
  {
    if sets == [] then [] else [Values(w, env, sets[0])] + SetsValues(w, env, sets[1..])
  }

  // ---------------------------------------------------------------- leaves of grouping sets

  ghost predicate Within(sets: seq<seq<Atom>>, ls: seq<Atom>) {
    forall s, l :: s in sets && l in s ==> l in ls
  }

  lemma {:induction false} PrependWithin(x: seq<Atom>, sets: seq<seq<Atom>>, a: seq<Atom>, b: seq<Atom>)
    requires Within(sets, b) && forall l :: l in x ==> l in a
    ensures Within(Prepend(x, sets), a + b)
  {
    if sets == [] {
    } else {
      PrependWithin(x, sets[1..], a, b);
      assert sets[0] in sets;
    }
  }

  lemma {:induction false} CubeWithin(s: seq<Atom>)
    ensures Within(CubeOf(s), LeavesOf(s))
  {
    if s == [] {
    } else {
      CubeWithin(s[1..]);
      PrependWithin(Leaves(s[0]), CubeOf(s[1..]), Leaves(s[0]), LeavesOf(s[1..]));
    }
  }

  lemma {:induction false} RollupWithin(s: seq<Atom>)
    ensures Within(RollupOf(s), LeavesOf(s))
  {
    if s == [] {
    } else {
      RollupWithin(s[1..]);
      PrependWithin(Leaves(s[0]), RollupOf(s[1..]), Leaves(s[0]), LeavesOf(s[1..]));
    }
  }

  lemma {:induction false} SetsWithin(e: Element)
    ensures Within(SetsOf(e), ElementLeaves(e))
    decreases e
  {
    match e
    case Simple(_) =>
    case Sets(s) => UnionWithin(s);
    case Operation(_, atoms) =>
      CubeWithin(atoms);
      RollupWithin(atoms);
  }

  lemma {:induction false} UnionWithin(s: seq<Element>)
    ensures Within(UnionOf(s), ClauseLeaves(s))
    decreases s
  {
    if s == [] {
    } else {
      SetsWithin(s[0]);
      UnionWithin(s[1..]);
    }
  }

  lemma {:induction false} CrossWithin(x: seq<seq<Atom>>, y: seq<seq<Atom>>, a: seq<Atom>, b: seq<Atom>)
    requires Within(x, a) && Within(y, b)
    ensures Within(Cross(x, y), a + b)
  {
    if x == [] {
    } else {
      assert x[0] in x;
      PrependWithin(x[0], y, a, b);
      CrossWithin(x[1..], y, a, b);
    }
  }

  lemma {:induction false} GroupingSetsWithin(clause: seq<Element>)
    ensures Within(GroupingSets(clause), ClauseLeaves(clause))
  {
    if clause == [] {
    } else {
      SetsWithin(clause[0]);
      GroupingSetsWithin(clause[1..]);
      CrossWithin(SetsOf(clause[0]), GroupingSets(clause[1..]), ElementLeaves(clause[0]), ClauseLeaves(clause[1..]));
    }
  }

  lemma {:induction false} ElementLeavesRenamed(e: Element, m: AliasMap)
    ensures ElementLeaves(RenameElement(e, m)) == RenameLeaves(ElementLeaves(e), m)
    decreases e
  {
    match e
    case Simple(a) => LeavesRenamed(a, m);
    case Sets(s) => ClauseLeavesRenamed(s, m);
    case Operation(_, atoms) => LeavesOfRenamed(atoms, m);
  }

  lemma {:induction false} ClauseLeavesRenamed(s: seq<Element>, m: AliasMap)
    ensures ClauseLeaves(RenameElements(s, m)) == RenameLeaves(ClauseLeaves(s), m)
    decreases s
  {
    if s == [] {
    } else {
      ElementLeavesRenamed(s[0], m);
      ClauseLeavesRenamed(s[1..], m);
      RenameLeavesConcat(ElementLeaves(s[0]), ClauseLeaves(s[1..]), m);
      assert RenameElements(s, m)[1..] == RenameElements(s[1..], m);
    }
  }

  // ---------------------------------------------------------------- the rewritten query

  /** The parts of an InternalGroupQuery that the rewriting produces; `key` lists field names with their aliases. */
  datatype InternalGroup = InternalGroup(using: seq<Using>, clause: seq<Element>,
                                         groupAlias: string, groupingAlias: string, key: seq<(string, string)>)

  datatype QueryError = SameNameInBy | BoundTwice(alias: string)

  ghost predicate IsGenerated(m: AliasMap, n: string) {
    exists p :: p in m && m[p].alias == n
  }

  ghost predicate BoundBy(us: seq<Using>, n: string) {
    exists i :: 0 <= i < |us| && us[i].alias == n
  }

  ghost predicate DistinctAliases(us: seq<Using>) {
    forall i, j :: 0 <= i < j < |us| ==> us[i].alias != us[j].alias
  }

  /** Each binding is of a pointer in the map to its alias, and each pointer in the map is bound. */
  ghost predicate Bindings(us: seq<Using>, m: AliasMap) {
    && (forall u :: u in us ==> u.expr.PtrPath? && u.expr.ptr in m && m[u.expr.ptr] == Bound(u.alias, u.expr.kind))
    && (forall p :: p in m ==> Using(m[p].alias, PtrPath(p, m[p].kind)) in us)
  }

  /** `m` has one alias for each pointer name of BY, and different aliases for different names. */
  ghost predicate MapOf(clause: seq<Element>, m: AliasMap) {
    && Covered(ClauseLeaves(clause), m)
    && (forall p :: p in m ==> Path(p, m[p].kind) in ClauseLeaves(clause))
    && (forall p, p' :: p in m && p' in m && p != p' ==> m[p].alias != m[p'].alias)
  }

  /** How the rewritten query is made from the original and the alias map. */
  ghost predicate Desugared(clause: seq<Element>, using: seq<Using>, gen: seq<Using>, m: AliasMap, q: InternalGroup) {
    && MapOf(clause, m)
    && Bindings(gen, m)
    && DistinctAliases(using)
    && q.using == gen + using
    && q.clause == RenameElements(clause, m)
  }

  // ---------------------------------------------------------------- meaning

  /** Both queries group by the same values, and agree on every BY leaf and on every USING variable. */
  ghost predicate SameIn(w: World, outer: Env, clause: seq<Element>, using: seq<Using>, q: InternalGroup) {
    var (env, env') := (EvalUsing(w, using, outer), EvalUsing(w, q.using, outer));
    && SetsValues(w, env, GroupingSets(clause)) == SetsValues(w, env', GroupingSets(q.clause))
    && Values(w, env, ClauseLeaves(clause)) == Values(w, env', ClauseLeaves(q.clause))
    && forall i :: 0 <= i < |using| ==> Lookup(env, using[i].alias) == Lookup(env', using[i].alias)
  }

  /** In every row, for every interpretation of the expressions and whatever variables are in scope outside. */
  ghost predicate SameMeaning(clause: seq<Element>, using: seq<Using>, q: InternalGroup) {
    forall w: World, outer: Env :: SameIn(w, outer, clause, using, q)
  }

  /**
   No generated alias captures a name of the query: a USING clause that binds one binds it to the same path, and a
   name in an expression or in BY that equals one is bound by USING before it is used.
   */
  ghost predicate NoCapture(clause: seq<Element>, using: seq<Using>, m: AliasMap) {
    && (forall i, p :: 0 <= i < |using| && p in m && m[p].alias == using[i].alias ==>
          using[i].expr == PtrPath(p, m[p].kind))
    && (forall i, n :: 0 <= i < |using| && using[i].expr.Fn? && n in using[i].expr.args && IsGenerated(m, n) ==>
          BoundBy(using[..i], n))
    && (forall n :: Ref(n) in ClauseLeaves(clause) && IsGenerated(m, n) ==> BoundBy(using, n))
  }

  lemma {:induction false} EvalConcat(w: World, a: seq<Using>, b: seq<Using>, env: Env)
    ensures EvalUsing(w, a + b, env) == EvalUsing(w, b, EvalUsing(w, a, env))
  {
    if b == [] {
      assert a + b == a;
    } else {
      var k := |b| - 1;
      EvalConcat(w, a, b[..k], env);
      assert (a + b)[..|a + b| - 1] == a + b[..k];
    }
  }

  lemma {:induction false} Untouched(w: World, us: seq<Using>, env: Env, n: string)
    requires !BoundBy(us, n)
    ensures Lookup(EvalUsing(w, us, env), n) == Lookup(env, n)
  {
    if us == [] {
    } else {
      var k := |us| - 1;
      assert us[k].alias != n;
      assert forall i :: 0 <= i < k ==> us[..k][i] == us[i];
      Untouched(w, us[..k], env, n);
    }
  }

  /** A variable bound once keeps the value its expression had where it stands. */
  lemma {:induction false} FinalValue(w: World, us: seq<Using>, env: Env, i: nat)
    requires DistinctAliases(us) && i < |us|
    ensures Lookup(EvalUsing(w, us, env), us[i].alias) == Some(EvalExpr(w, us[i].expr, EvalUsing(w, us[..i], env)))
  {
    var k := |us| - 1;
    if i < k {
      FinalValue(w, us[..k], env, i);
      assert us[..k][..i] == us[..i];
    }
  }

  lemma {:induction false} BindingsBind(w: World, us: seq<Using>, m: AliasMap, env: Env, p: string)
    requires forall u :: u in us ==> u.expr.PtrPath? && u.expr.ptr in m && m[u.expr.ptr] == Bound(u.alias, u.expr.kind)
    requires forall p, p' :: p in m && p' in m && p != p' ==> m[p].alias != m[p'].alias
    requires p in m && Using(m[p].alias, PtrPath(p, m[p].kind)) in us
    ensures Lookup(EvalUsing(w, us, env), m[p].alias) == Some(w.row(p, m[p].kind))
  {
    var (k, u) := (|us| - 1, Using(m[p].alias, PtrPath(p, m[p].kind)));
    assert us[k] in us;
    if us[k] != u {
      assert u in us[..k];
      BindingsBind(w, us[..k], m, env, p);
    }
  }

  /** After the generated bindings and some of the user's, with `us` being the latter. */
  ghost predicate Agree(w: World, env: Env, env': Env, m: AliasMap, us: seq<Using>) {
    && (forall p :: p in m ==> Lookup(env', m[p].alias) == Some(w.row(p, m[p].kind)))
    && (forall n :: !IsGenerated(m, n) || BoundBy(us, n) ==> Lookup(env, n) == Lookup(env', n))
  }

  lemma AgreeFirst(w: World, clause: seq<Element>, gen: seq<Using>, m: AliasMap, outer: Env)
    requires MapOf(clause, m) && Bindings(gen, m)
    ensures Agree(w, outer, EvalUsing(w, gen, outer), m, [])
  {
    forall p | p in m ensures Lookup(EvalUsing(w, gen, outer), m[p].alias) == Some(w.row(p, m[p].kind)) {
      BindingsBind(w, gen, m, outer, p);
    }
    forall n | !IsGenerated(m, n) ensures Lookup(EvalUsing(w, gen, outer), n) == Lookup(outer, n) {
      Untouched(w, gen, outer, n);
    }
  }

  /** An expression that uses no captured name has one value. */
  lemma ExprsAgree(w: World, env: Env, env': Env, m: AliasMap, us: seq<Using>, e: Expr)
    requires Agree(w, env, env', m, us)
    requires e.Fn? ==> forall n :: n in e.args && IsGenerated(m, n) ==> BoundBy(us, n)
    ensures EvalExpr(w, e, env) == EvalExpr(w, e, env')
  {
    if e.Fn? {
      forall k | 0 <= k < |e.args| ensures Lookup(env, e.args[k]) == Lookup(env', e.args[k]) {
        assert e.args[k] in e.args;
      }
      assert Lookups(env, e.args) == Lookups(env', e.args);
    }
  }

  lemma AgreeNext(w: World, env: Env, env': Env, m: AliasMap, us: seq<Using>, u: Using)
    requires Agree(w, env, env', m, us)
    requires EvalExpr(w, u.expr, env) == EvalExpr(w, u.expr, env')
    requires forall p :: p in m && m[p].alias == u.alias ==> u.expr == PtrPath(p, m[p].kind)
    ensures Agree(w, env[u.alias := EvalExpr(w, u.expr, env)], env'[u.alias := EvalExpr(w, u.expr, env')], m, us + [u])
  {
    var (e, e') := (env[u.alias := EvalExpr(w, u.expr, env)], env'[u.alias := EvalExpr(w, u.expr, env')]);
    forall n | !IsGenerated(m, n) || BoundBy(us + [u], n) ensures Lookup(e, n) == Lookup(e', n) {
      if n != u.alias && BoundBy(us + [u], n) {
        var j :| 0 <= j < |us + [u]| && (us + [u])[j].alias == n;
        assert us[j].alias == n;
      }
    }
  }

  lemma {:induction false} AgreeAll(w: World, env: Env, env': Env, clause: seq<Element>, m: AliasMap,
                                    using: seq<Using>, i: nat)
    requires MapOf(clause, m) && NoCapture(clause, using, m) && i <= |using|
    requires Agree(w, env, env', m, [])
    ensures Agree(w, EvalUsing(w, using[..i], env), EvalUsing(w, using[..i], env'), m, using[..i])
  {
    if i == 0 {
    } else {
      AgreeAll(w, env, env', clause, m, using, i - 1);
      var (us, u) := (using[..i - 1], using[i - 1]);
      assert using[..i][..i - 1] == us && using[..i] == us + [u];
      ExprsAgree(w, EvalUsing(w, us, env), EvalUsing(w, us, env'), m, us, u.expr);
      AgreeNext(w, EvalUsing(w, us, env), EvalUsing(w, us, env'), m, us, u);
    }
  }

  lemma LeavesAgree(w: World, env: Env, env': Env, clause: seq<Element>, using: seq<Using>, m: AliasMap, ls: seq<Atom>)
    requires MapOf(clause, m) && NoCapture(clause, using, m) && Agree(w, env, env', m, using)
    requires forall l :: l in ls ==> l in ClauseLeaves(clause)
    ensures Values(w, env, ls) == Values(w, env', RenameLeaves(ls, m))
  {
    forall k | 0 <= k < |ls| ensures LeafValue(w, env, ls[k]) == LeafValue(w, env', RenameLeaf(ls[k], m)) {
      assert ls[k] in ls;
      if ls[k].Ref? {
        assert Ref(ls[k].name) in ClauseLeaves(clause);
      }
    }
  }

  lemma SetsAgree(w: World, env: Env, env': Env, clause: seq<Element>, using: seq<Using>, m: AliasMap)
    requires MapOf(clause, m) && NoCapture(clause, using, m) && Agree(w, env, env', m, using)
    ensures SetsValues(w, env, GroupingSets(clause)) == SetsValues(w, env', GroupingSets(RenameElements(clause, m)))
  {
    GroupingSetsRenamed(clause, m);
    GroupingSetsWithin(clause);
    var sets := GroupingSets(clause);
    forall k | 0 <= k < |sets| ensures Values(w, env, sets[k]) == Values(w, env', RenameLeaves(sets[k], m)) {
      assert sets[k] in sets;
      LeavesAgree(w, env, env', clause, using, m, sets[k]);
    }
  }

  lemma NoCaptureKeepsMeaning(w: World, outer: Env, clause: seq<Element>, using: seq<Using>,
                              gen: seq<Using>, m: AliasMap, q: InternalGroup)
    requires Desugared(clause, using, gen, m, q) && NoCapture(clause, using, m)
    ensures SameIn(w, outer, clause, using, q)
  {
    var (env, env') := (EvalUsing(w, using, outer), EvalUsing(w, q.using, outer));
    AgreeFirst(w, clause, gen, m, outer);
    EvalConcat(w, gen, using, outer);
    AgreeAll(w, outer, EvalUsing(w, gen, outer), clause, m, using, |using|);
    assert using[..|using|] == using;
    ClauseLeavesRenamed(clause, m);
    LeavesAgree(w, env, env', clause, using, m, ClauseLeaves(clause));
    SetsAgree(w, env, env', clause, using, m);
  }

  /** A BY leaf with two values tells the queries apart. */
  lemma LeafTellsApart(w: World, outer: Env, clause: seq<Element>, using: seq<Using>, q: InternalGroup, m: AliasMap,
                       l: Atom)
    requires q.clause == RenameElements(clause, m) && l in ClauseLeaves(clause)
    requires LeafValue(w, EvalUsing(w, using, outer), l) != LeafValue(w, EvalUsing(w, q.using, outer), RenameLeaf(l, m))
    ensures !SameMeaning(clause, using, q)
  {
    var (env, env', ls) := (EvalUsing(w, using, outer), EvalUsing(w, q.using, outer), ClauseLeaves(clause));
    ClauseLeavesRenamed(clause, m);
    var k :| 0 <= k < |ls| && ls[k] == l;
    assert Values(w, env, ls)[k] != Values(w, env', RenameLeaves(ls, m))[k];
    assert !SameIn(w, outer, clause, using, q);
  }

  /** A USING clause that rebinds a generated alias to something else changes what BY groups by. */
  lemma RebindingIsSeen(clause: seq<Element>, using: seq<Using>, gen: seq<Using>, m: AliasMap, q: InternalGroup,
                        i: nat, p: string)
    requires Desugared(clause, using, gen, m, q)
    requires i < |using| && p in m && m[p].alias == using[i].alias && using[i].expr != PtrPath(p, m[p].kind)
    ensures !SameMeaning(clause, using, q)
  {
    var k := m[p].kind;
    var w := World((x, t) => if x == p && t == k then 0 else 1, (op, vs) => 1);
    EvalConcat(w, gen, using, map[]);
    FinalValue(w, using, EvalUsing(w, gen, map[]), i);
    LeafTellsApart(w, map[], clause, using, q, m, Path(p, k));
  }

  /** An expression that uses an outer variable with the name of a generated alias sees the pointer instead. */
  lemma CapturedArgumentIsSeen(clause: seq<Element>, using: seq<Using>, gen: seq<Using>, m: AliasMap, q: InternalGroup,
                               i: nat, n: string)
    requires Desugared(clause, using, gen, m, q)
    requires i < |using| && using[i].expr.Fn? && n in using[i].expr.args
    requires IsGenerated(m, n) && !BoundBy(using[..i], n)
    ensures !SameMeaning(clause, using, q)
  {
    var args := using[i].expr.args;
    var k :| 0 <= k < |args| && args[k] == n;
    var w := World((x, t) => 0, (op: nat, vs: seq<Option<Value>>) => if k < |vs| && vs[k].Some? then 1 else 0);
    CapturedIn(w, clause, using[..i], gen, m, n);
    EvalConcat(w, gen, using, map[]);
    VariableTellsApart(w, clause, using, q, EvalUsing(w, gen, map[]), i);
  }

  /** A USING variable with two values tells the queries apart. */
  lemma VariableTellsApart(w: World, clause: seq<Element>, using: seq<Using>, q: InternalGroup, first: Env, i: nat)
    requires DistinctAliases(using) && i < |using|
    requires EvalUsing(w, q.using, map[]) == EvalUsing(w, using, first)
    requires
      var (e, us) := (using[i].expr, using[..i]);
      EvalExpr(w, e, EvalUsing(w, us, map[])) != EvalExpr(w, e, EvalUsing(w, us, first))
    ensures !SameMeaning(clause, using, q)
  {
    FinalValue(w, using, map[], i);
    FinalValue(w, using, first, i);
    assert !SameIn(w, map[], clause, using, q);
  }

  /** A captured name has no value in the original and one in the rewritten query. */
  lemma CapturedIn(w: World, clause: seq<Element>, us: seq<Using>, gen: seq<Using>, m: AliasMap, n: string)
    requires MapOf(clause, m) && Bindings(gen, m)
    requires IsGenerated(m, n) && !BoundBy(us, n)
    ensures Lookup(EvalUsing(w, us, map[]), n) == None
    ensures Lookup(EvalUsing(w, us, EvalUsing(w, gen, map[])), n).Some?
  {
    Untouched(w, us, map[], n);
    Untouched(w, us, EvalUsing(w, gen, map[]), n);
    AgreeFirst(w, clause, gen, m, map[]);
  }

  /** So does a name in BY. */
  lemma CapturedNameIsSeen(clause: seq<Element>, using: seq<Using>, gen: seq<Using>, m: AliasMap, q: InternalGroup,
                           n: string)
    requires Desugared(clause, using, gen, m, q)
    requires Ref(n) in ClauseLeaves(clause) && IsGenerated(m, n) && !BoundBy(using, n)
    ensures !SameMeaning(clause, using, q)
  {
    var w := World((x, t) => 0, (op, vs) => 0);
    CapturedIn(w, clause, using, gen, m, n);
    EvalConcat(w, gen, using, map[]);
    LeafTellsApart(w, map[], clause, using, q, m, Ref(n));
  }

  /** The rewritten query means the same exactly when no generated alias captures a name of the query. */
  lemma MeaningKeptIffNoCapture(clause: seq<Element>, using: seq<Using>, gen: seq<Using>, m: AliasMap, q: InternalGroup)
    requires Desugared(clause, using, gen, m, q)
    ensures SameMeaning(clause, using, q) <==> NoCapture(clause, using, m)
  {
    if NoCapture(clause, using, m) {
      forall w: World, outer: Env ensures SameIn(w, outer, clause, using, q) {
        NoCaptureKeepsMeaning(w, outer, clause, using, gen, m, q);
      }
    } else if i: nat, p :|
      i < |using| && p in m && m[p].alias == using[i].alias && using[i].expr != PtrPath(p, m[p].kind)
    {
      RebindingIsSeen(clause, using, gen, m, q, i, p);
    } else if i: nat, n :|
      i < |using| && using[i].expr.Fn? && n in using[i].expr.args && IsGenerated(m, n) && !BoundBy(using[..i], n)
    {
      CapturedArgumentIsSeen(clause, using, gen, m, q, i, n);
    } else {
      var n :| Ref(n) in ClauseLeaves(clause) && IsGenerated(m, n) && !BoundBy(using, n);
      CapturedNameIsSeen(clause, using, gen, m, q, n);
    }
  }

  /** A query none of whose names has a tilde in it keeps its meaning. */
  lemma PlainNamesAreSafe(clause: seq<Element>, using: seq<Using>, gen: seq<Using>, m: AliasMap, q: InternalGroup)
    requires Desugared(clause, using, gen, m, q)
    requires forall p :: p in m ==> '~' in m[p].alias
    requires forall i :: 0 <= i < |using| ==>
      && '~' !in using[i].alias
      && (using[i].expr.Fn? ==> forall n :: n in using[i].expr.args ==> '~' !in n)
    requires forall n :: Ref(n) in ClauseLeaves(clause) ==> '~' !in n
    ensures SameMeaning(clause, using, q)
  {
    MeaningKeptIffNoCapture(clause, using, gen, m, q);
  }

  // ---------------------------------------------------------------- collect_grouping_atoms

  ghost predicate OnlyNames(ls: seq<Atom>) {
    forall l :: l in ls ==> l.Ref?
  }

  /** `atoms` with the names of some leaves added. */
  ghost predicate Added(ls: seq<Atom>, before: set<string>, after: set<string>) {
    forall n :: n in after <==> n in before || Ref(n) in ls
  }

  method CollectAtom(el: Atom, atoms: set<string>) returns (r: set<string>)
    requires OnlyNames(Leaves(el))
    ensures Added(Leaves(el), atoms, r)
    decreases el
  {
    if el.IdentList? {
      r := CollectAtoms(el.elements, atoms);
    } else {
      assert el in Leaves(el);
      r := atoms + {el.name};
    }
  }

  method CollectAtoms(s: seq<Atom>, atoms: set<string>) returns (r: set<string>)
    requires OnlyNames(LeavesOf(s))
    ensures Added(LeavesOf(s), atoms, r)
    decreases s
  {
    if s == [] {
      return atoms;
    }
    var first := CollectAtom(s[0], atoms);
    r := CollectAtoms(s[1..], first);
  }

  method CollectElement(e: Element, atoms: set<string>) returns (r: set<string>)
    requires OnlyNames(ElementLeaves(e))
    ensures Added(ElementLeaves(e), atoms, r)
    decreases e
  {
    match e
    case Simple(a) => r := CollectAtom(a, atoms);
    case Sets(s) => r := CollectElements(s, atoms);
    case Operation(_, elements) => r := CollectAtoms(elements, atoms);
  }

  method CollectElements(s: seq<Element>, atoms: set<string>) returns (r: set<string>)
    requires OnlyNames(ClauseLeaves(s))
    ensures Added(ClauseLeaves(s), atoms, r)
    decreases s
  {
    if s == [] {
      return atoms;
    }
    var first := CollectElement(s[0], atoms);
    r := CollectElements(s[1..], first);
  }

  ghost predicate NamesIn(clause: seq<Element>, names: set<string>) {
    forall n :: n in names <==> Ref(n) in ClauseLeaves(clause)
  }

  /** The names that occur in BY. */
  method CollectGroupingAtoms(els: seq<Element>) returns (atoms: set<string>)
    requires OnlyNames(ClauseLeaves(els))
    ensures NamesIn(els, atoms)
  {
    atoms := CollectElements(els, {});
  }

  // ---------------------------------------------------------------- desugar_group

  /** BY uses one name for pointers of two types. */
  ghost predicate MixedKinds(ls: seq<Atom>) {
    exists l, l' :: l in ls && l' in ls && l.Path? && l'.Path? && l.ptr == l'.ptr && l.kind != l'.kind
  }

  /** USING binds a name that BY uses as a pointer, or binds a name twice. */
  ghost predicate BoundAgain(ls: seq<Atom>, using: seq<Using>, i: nat)
    requires i < |using|
  {
    (exists l :: l in ls && l.Path? && l.ptr == using[i].alias) || BoundBy(using[..i], using[i].alias)
  }

  /** An item of `alias_map`, which keeps its insertion order. */
  datatype Item = Item(name: string, binding: Using)

  ghost predicate ItemsOf(items: seq<Item>, order: seq<string>, m: AliasMap) {
    && |items| == |order|
    && forall i :: 0 <= i < |items| ==>
      order[i] in m && items[i] == Item(order[i], Using(m[order[i]].alias, PtrPath(order[i], m[order[i]].kind)))
  }

  method PointerItems(order: seq<string>, m: AliasMap) returns (items: seq<Item>)
    requires forall p :: p in order ==> p in m
    ensures ItemsOf(items, order, m)
  {
    items := [];
    for i := 0 to |order|
      invariant ItemsOf(items, order[..i], m)
    {
      var p := order[i];
      assert p in order;
      items := items + [Item(p, Using(m[p].alias, PtrPath(p, m[p].kind)))];
    }
    assert order[..|order|] == order;
  }

  ghost predicate Named(items: seq<Item>, n: string) {
    exists i :: 0 <= i < |items| && items[i].name == n
  }

  function UserItems(using: seq<Using>): (r: seq<Item>)
    ensures |r| == |using| && forall i :: 0 <= i < |r| ==> r[i] == Item(using[i].alias, using[i])
  {
    if using == [] then [] else [Item(using[0].alias, using[0])] + UserItems(using[1..])
  }

  /** Adds the USING clauses, unless one of them binds a name that is already there. */
  method AddUsing(pointers: seq<Item>, using: seq<Using>) returns (items: seq<Item>, clash: Option<nat>)
    ensures clash.None? ==>
      && items == pointers + UserItems(using)
      && DistinctAliases(using)
      && forall i :: 0 <= i < |using| ==> !Named(pointers, using[i].alias)
    ensures clash.Some? ==>
      && clash.value < |using|
      && (Named(pointers, using[clash.value].alias) || BoundBy(using[..clash.value], using[clash.value].alias))
      && (forall i :: 0 <= i < clash.value ==> !Named(pointers, using[i].alias))
      && DistinctAliases(using[..clash.value])
  {
    items := pointers;
    for i := 0 to |using|
      invariant |items| == |pointers| + i && items[..|pointers|] == pointers
      invariant forall j :: 0 <= j < i ==> items[|pointers| + j] == Item(using[j].alias, using[j])
      invariant forall j :: 0 <= j < i ==> !Named(pointers, using[j].alias)
      invariant forall j, k :: 0 <= j < k < i ==> using[j].alias != using[k].alias
    {
      var u := using[i];
      if k :| 0 <= k < |items| && items[k].name == u.alias {
        if k < |pointers| {
          assert pointers[k].name == u.alias;
        } else {
          assert using[..i][k - |pointers|].alias == u.alias;
        }
        return items, Some(i);
      }
      assert forall k :: 0 <= k < i ==> items[|pointers| + k].name == using[k].alias;
      assert forall k :: 0 <= k < |pointers| ==> items[k] == pointers[k];
      items := items + [Item(u.alias, u)];
    }
    clash := None;
  }

  ghost predicate OutputsOf(items: seq<Item>, keys: set<string>, using: seq<Using>, key: seq<(string, string)>) {
    && |using| == |items|
    && (forall i :: 0 <= i < |items| ==> using[i] == items[i].binding)
    && InOrder(using, keys, key)
    && forall n, a :: (n, a) in key <==> a in keys && exists it :: it in items && it.name == n && it.binding.alias == a
  }

  /** The aliases in `key` are those of the bindings that are in `keys`, in the same order. */
  ghost predicate InOrder(using: seq<Using>, keys: set<string>, key: seq<(string, string)>) {
    if using == [] then key == [] else
      var u := using[|using| - 1];
      if u.alias in keys
      then key != [] && key[|key| - 1].1 == u.alias && InOrder(using[..|using| - 1], keys, key[..|key| - 1])
      else InOrder(using[..|using| - 1], keys, key)
  }

  lemma InOrderNext(using: seq<Using>, keys: set<string>, key: seq<(string, string)>, u: Using, n: string)
    requires InOrder(using, keys, key)
    ensures InOrder(using + [u], keys, if u.alias in keys then key + [(n, u.alias)] else key)
  {
    assert (using + [u])[..|using|] == using;
    assert (key + [(n, u.alias)])[..|key|] == key;
  }

  /** The bindings of the items, and the fields of the key object among them. */
  method Outputs(items: seq<Item>, keys: set<string>) returns (using: seq<Using>, key: seq<(string, string)>)
    ensures OutputsOf(items, keys, using, key)
  {
    using, key := [], [];
    for i := 0 to |items|
      invariant |using| == i && forall j :: 0 <= j < i ==> using[j] == items[j].binding
      invariant InOrder(using, keys, key)
      invariant forall n, a :: (n, a) in key <==>
        a in keys && exists it :: it in items[..i] && it.name == n && it.binding.alias == a
    {
      var it := items[i];
      assert items[..i + 1] == items[..i] + [it];
      InOrderNext(using, keys, key, it.binding, it.name);
      using := using + [it.binding];
      if it.binding.alias in keys {
        key := key + [(it.name, it.binding.alias)];
      }
    }
    assert items[..|items|] == items;
  }

  /** The key object has every pointer of BY, and the USING variables whose names occur in the rewritten BY. */
  ghost predicate KeyOf(clause: seq<Element>, using: seq<Using>, m: AliasMap, key: seq<(string, string)>) {
    forall n, a :: (n, a) in key <==> KeyField(clause, using, m, n, a)
  }

  ghost predicate KeyField(clause: seq<Element>, using: seq<Using>, m: AliasMap, n: string, a: string) {
    || (n in m && a == m[n].alias)
    || (n == a && BoundBy(using, n) && (Ref(n) in ClauseLeaves(clause) || IsGenerated(m, n)))
  }

  lemma ItemsBind(items: seq<Item>, order: seq<string>, m: AliasMap, gen: seq<Using>)
    requires ItemsOf(items, order, m) && forall p :: p in order <==> p in m
    requires |gen| == |items| && forall i :: 0 <= i < |items| ==> gen[i] == items[i].binding
    ensures Bindings(gen, m)
  {
    forall p | p in m ensures Using(m[p].alias, PtrPath(p, m[p].kind)) in gen {
      var i :| 0 <= i < |order| && order[i] == p;
      assert gen[i] in gen;
    }
  }

  /** Renamed leaves are names: those of BY and the aliases of its pointers. */
  lemma RenamedNames(clause: seq<Element>, m: AliasMap)
    requires MapOf(clause, m)
    ensures OnlyNames(ClauseLeaves(RenameElements(clause, m)))
    ensures forall n :: Ref(n) in ClauseLeaves(RenameElements(clause, m)) <==>
      Ref(n) in ClauseLeaves(clause) || IsGenerated(m, n)
  {
    var ls := ClauseLeaves(clause);
    ClauseLeavesRenamed(clause, m);
    forall n | Ref(n) in ls || IsGenerated(m, n) ensures Ref(n) in RenameLeaves(ls, m) {
      var l := if Ref(n) in ls then Ref(n) else var p :| p in m && m[p].alias == n; Path(p, m[p].kind);
      var k :| 0 <= k < |ls| && ls[k] == l;
      assert RenameLeaves(ls, m)[k] == Ref(n);
    }
  }

  /** What the rewriting of a query promises about its result. */
  ghost predicate Rewritten(clause: seq<Element>, using: seq<Using>, before: set<string>, gen: seq<Using>, m: AliasMap,
                            q: InternalGroup) {
    && Desugared(clause, using, gen, m, q)
    && KeyOf(clause, using, m, q.key)
    && KeyInOrder(q)
    && (forall p :: p in m ==>
          && m[p].alias !in before && '~' in m[p].alias
          && m[p].alias != q.groupAlias && m[p].alias != q.groupingAlias)
    && q.groupAlias != q.groupingAlias && q.groupAlias !in before && q.groupingAlias !in before
    && AliasFor("g", q.groupAlias) && AliasFor("grouping", q.groupingAlias)
  }

  ghost predicate AliasFor(hint: string, alias: string) {
    exists n: nat :: alias == Alias(hint, n)
  }

  /** The key object has one field for each binding that BY uses, in the order of the bindings. */
  ghost predicate KeyInOrder(q: InternalGroup) {
    exists keys :: NamesIn(q.clause, keys) && InOrder(q.using, keys, q.key)
  }

  /** The inputs that are rejected. */
  ghost predicate Rejected(ls: seq<Atom>, using: seq<Using>) {
    MixedKinds(ls) || exists i: nat :: i < |using| && BoundAgain(ls, using, i)
  }

  /** The alias is that of the first USING clause that must not be there. */
  ghost predicate FirstBoundAgain(ls: seq<Atom>, using: seq<Using>, alias: string) {
    exists i: nat :: i < |using| && using[i].alias == alias && BoundAgain(ls, using, i) && NoneBoundAgain(ls, using, i)
  }

  ghost predicate NoneBoundAgain(ls: seq<Atom>, using: seq<Using>, n: nat)
    requires n <= |using|
  {
    forall i: nat :: i < n ==> !BoundAgain(ls, using, i)
  }

  method Desugar(clause: seq<Element>, using: seq<Using>, aliases: AliasGenerator)
    returns (r: Result<InternalGroup, QueryError>, ghost gen: seq<Using>, ghost m: AliasMap)
    requires aliases.Valid()
    modifies aliases
    ensures aliases.Valid() && old(aliases.issued) <= aliases.issued
    ensures r.Ok? ==> Rewritten(clause, using, old(aliases.issued), gen, m, r.value)
    ensures r.Ok? ==> Numbered(m, OrderAfter([], ClauseLeaves(clause)), old(aliases.counts))
    ensures r.Err? <==> Rejected(ClauseLeaves(clause), using)
    ensures r.Err? ==> (r.error.SameNameInBy? <==> MixedKinds(ClauseLeaves(clause)))
    ensures r.Err? && r.error.BoundTwice? ==> FirstBoundAgain(ClauseLeaves(clause), using, r.error.alias)
  {
    ghost var ls := ClauseLeaves(clause);
    gen := [];
    var rewriter := new Rewriter(aliases);
    var clause' := rewriter.RewriteAll(clause);
    m := rewriter.byAliasMap;
    if clause'.None? {
      ClashMeansMixed(ls, m);
      return Err(SameNameInBy), gen, m;
    }
    var pointers := PointerItems(rewriter.order, rewriter.byAliasMap);
    var items, clash := AddUsing(pointers, using);
    ClashMeansRejected(pointers, rewriter.order, m, ls, using, clash);
    if clash.Some? {
      FirstClash(pointers, rewriter.order, m, ls, using, clash.value);
      return Err(BoundTwice(using[clash.value].alias)), gen, m;
    }
    var q;
    q, gen := Assemble(clause, using, clause'.value, items, aliases, rewriter.before, m, rewriter.order, pointers);
    r := Ok(q);
  }

  /** The part of the rewriting after the alias map is complete. */
  method Assemble(ghost clause: seq<Element>, ghost using: seq<Using>, clause': seq<Element>, items: seq<Item>,
                  aliases: AliasGenerator, ghost before: set<string>, ghost m: AliasMap, ghost order: seq<string>,
                  ghost pointers: seq<Item>)
    returns (q: InternalGroup, ghost gen: seq<Using>)
    requires aliases.Valid() && FreshMap(m, order, before, aliases.issued)
    requires MapOf(clause, m) && DistinctAliases(using) && clause' == RenameElements(clause, m)
    requires ItemsOf(pointers, order, m) && items == pointers + UserItems(using)
    modifies aliases
    ensures aliases.Valid() && before <= aliases.issued
    ensures Rewritten(clause, using, before, gen, m, q)
  {
    RenamedNames(clause, m);
    var actualKeys := CollectGroupingAtoms(clause');
    var g := aliases.Get("g");
    var grouping := aliases.Get("grouping");
    assert CleanHint("g") == "g" && CleanHint("grouping") == "grouping";
    var using', key := Outputs(items, actualKeys);
    gen := using'[..|pointers|];
    UsingSplit(pointers, using, actualKeys, using', key);
    ItemsBind(pointers, order, m, gen);
    KeyIsRight(clause, using, m, pointers, order, actualKeys, using', key);
    q := InternalGroup(using', clause', g, grouping, key);
  }

  lemma UsingSplit(pointers: seq<Item>, using: seq<Using>, keys: set<string>, using': seq<Using>,
                   key: seq<(string, string)>)
    requires OutputsOf(pointers + UserItems(using), keys, using', key)
    ensures |pointers| <= |using'| && using' == using'[..|pointers|] + using
    ensures forall i :: 0 <= i < |pointers| ==> using'[..|pointers|][i] == pointers[i].binding
  {
    var items := pointers + UserItems(using);
    forall i | 0 <= i < |using| ensures using'[|pointers| + i] == using[i] {
      assert items[|pointers| + i] == UserItems(using)[i];
    }
    forall i | 0 <= i < |pointers| ensures using'[i] == pointers[i].binding {
      assert items[i] == pointers[i];
    }
  }

  lemma ClashMeansRejected(pointers: seq<Item>, order: seq<string>, m: AliasMap, ls: seq<Atom>, using: seq<Using>,
                           clash: Option<nat>)
    requires ItemsOf(pointers, order, m) && (forall p :: p in order <==> p in m)
    requires Covered(ls, m) && forall p :: p in m ==> Path(p, m[p].kind) in ls
    requires clash.None? ==> DistinctAliases(using) && forall i :: 0 <= i < |using| ==> !Named(pointers, using[i].alias)
    requires clash.Some? ==>
      && clash.value < |using|
      && (Named(pointers, using[clash.value].alias) || BoundBy(using[..clash.value], using[clash.value].alias))
    ensures clash.Some? <==> Rejected(ls, using)
  {
    CoveredMeansNotMixed(ls, m);
    NamedMeansPointer(pointers, order, m, ls);
    if clash.Some? {
      assert BoundAgain(ls, using, clash.value);
    }
  }

  lemma FirstClash(pointers: seq<Item>, order: seq<string>, m: AliasMap, ls: seq<Atom>, using: seq<Using>, n: nat)
    requires ItemsOf(pointers, order, m) && (forall p :: p in order <==> p in m)
    requires Covered(ls, m) && forall p :: p in m ==> Path(p, m[p].kind) in ls
    requires n < |using| && (Named(pointers, using[n].alias) || BoundBy(using[..n], using[n].alias))
    requires (forall i :: 0 <= i < n ==> !Named(pointers, using[i].alias)) && DistinctAliases(using[..n])
    ensures FirstBoundAgain(ls, using, using[n].alias) && !MixedKinds(ls)
  {
    CoveredMeansNotMixed(ls, m);
    NamedMeansPointer(pointers, order, m, ls);
    forall i: nat | i < n ensures !BoundAgain(ls, using, i) {
      assert forall j :: 0 <= j < i ==> using[..i][j].alias == using[..n][j].alias != using[..n][i].alias;
    }
    assert BoundAgain(ls, using, n);
  }

  lemma ClashMeansMixed(ls: seq<Atom>, m: AliasMap)
    requires Step(ls, map[], m, false)
    ensures MixedKinds(ls)
  {
    var l :| l in ls && l.Path? && l.ptr in m && m[l.ptr].kind != l.kind;
    assert Path(l.ptr, m[l.ptr].kind) in ls;
  }

  lemma CoveredMeansNotMixed(ls: seq<Atom>, m: AliasMap)
    requires Covered(ls, m)
    ensures !MixedKinds(ls)
  {
  }

  lemma NamedMeansPointer(pointers: seq<Item>, order: seq<string>, m: AliasMap, ls: seq<Atom>)
    requires ItemsOf(pointers, order, m) && (forall p :: p in order <==> p in m)
    requires Covered(ls, m) && forall p :: p in m ==> Path(p, m[p].kind) in ls
    ensures forall n :: Named(pointers, n) <==> exists l :: l in ls && l.Path? && l.ptr == n
  {
    forall n ensures Named(pointers, n) <==> exists l :: l in ls && l.Path? && l.ptr == n {
      if Named(pointers, n) {
        assert n in order;
        assert Path(n, m[n].kind) in ls;
      }
      if l :| l in ls && l.Path? && l.ptr == n {
        assert n in order;
        var i :| 0 <= i < |order| && order[i] == n;
        assert pointers[i].name == n;
      }
    }
  }

  /** Every item in the key object is one that should be there. */
  lemma KeySound(clause: seq<Element>, using: seq<Using>, m: AliasMap, pointers: seq<Item>, order: seq<string>,
                 it: Item)
    requires ItemsOf(pointers, order, m) && it in pointers + UserItems(using)
    ensures
      || (it.name in m && it.binding.alias == m[it.name].alias)
      || (it.name == it.binding.alias && BoundBy(using, it.name))
  {
    if it in pointers {
      var i :| 0 <= i < |pointers| && pointers[i] == it;
    } else {
      var i :| 0 <= i < |using| && UserItems(using)[i] == it;
    }
  }

  /** And the other way round. */
  lemma KeyComplete(using: seq<Using>, m: AliasMap, pointers: seq<Item>, order: seq<string>, n: string)
    requires ItemsOf(pointers, order, m) && forall p :: p in order <==> p in m
    ensures n in m ==> exists it :: it in pointers + UserItems(using) && it.name == n && it.binding.alias == m[n].alias
    ensures BoundBy(using, n) ==>
      exists it :: it in pointers + UserItems(using) && it.name == n && it.binding.alias == n
  {
    if n in m {
      var i :| 0 <= i < |order| && order[i] == n;
      assert pointers[i] in pointers + UserItems(using);
    }
    if BoundBy(using, n) {
      var i :| 0 <= i < |using| && using[i].alias == n;
      assert UserItems(using)[i] in pointers + UserItems(using);
    }
  }

  lemma KeyIsRight(clause: seq<Element>, using: seq<Using>, m: AliasMap, pointers: seq<Item>, order: seq<string>,
                   keys: set<string>, using': seq<Using>, key: seq<(string, string)>)
    requires ItemsOf(pointers, order, m) && (forall p :: p in order <==> p in m)
    requires forall n :: n in keys <==> Ref(n) in ClauseLeaves(clause) || IsGenerated(m, n)
    requires OutputsOf(pointers + UserItems(using), keys, using', key)
    ensures KeyOf(clause, using, m, key)
  {
    forall n, a ensures (n, a) in key <==> KeyField(clause, using, m, n, a) {
      KeyComplete(using, m, pointers, order, n);
      if it :| it in pointers + UserItems(using) && it.name == n && it.binding.alias == a {
        KeySound(clause, using, m, pointers, order, it);
      }
    }
  }

  // ---------------------------------------------------------------- a captured name

  /** BY and USING of a query that groups by `.x` and binds a variable with the name of the first alias for `x`. */
  function CaptureInput(): (seq<Element>, seq<Using>) {
    ([Simple(Path("x", Plain))], [Using(Alias("x", 1), Fn(0, []))])
  }

  lemma CaptureLeaves()
    ensures ClauseLeaves(CaptureInput().0) == [Path("x", Plain)]
    ensures OrderAfter([], ClauseLeaves(CaptureInput().0)) == ["x"]
    ensures NextAlias(map[], "x") == Alias("x", 1)
  {
    OrderAfterOne([], Path("x", Plain));
  }

  /** The query is accepted, and what it is rewritten to does not mean the same. */
  method CaptureExample() returns (q: InternalGroup)
    ensures !SameMeaning(CaptureInput().0, CaptureInput().1, q)
  {
    var (clause, using) := CaptureInput();
    CaptureLeaves();
    var aliases := new AliasGenerator();
    var r, gen, m := Desugar(clause, using, aliases);
    CaptureAccepted();
    q := r.value;
    assert NumberedAt(m, ["x"], map[], 0);
    RebindingIsSeen(clause, using, gen, m, q, 0, "x");
  }

  lemma CaptureAccepted()
    ensures !Rejected(ClauseLeaves(CaptureInput().0), CaptureInput().1)
  {
    var (clause, using) := CaptureInput();
    CaptureLeaves();
    assert using[0].alias[1] == '~';
    assert using[..0] == [];
  }
}
