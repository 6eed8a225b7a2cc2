/** The LRU mapping of edb/common/lru.py: an ordered dictionary whose oldest entry makes room. */
module Lru {
  import opened Results
  import opened Collections

  lemma LastApart<K(!new)>(s: seq<K>)
    requires Distinct(s) && s != []
    ensures Distinct(s[..|s| - 1]) && s[|s| - 1] !in s[..|s| - 1]
    ensures forall y :: y in s <==> y in s[..|s| - 1] || y == s[|s| - 1]
  {
    assert s == s[..|s| - 1] + [s[|s| - 1]];
  }

  lemma {:induction false} WithoutDistinct<K(!new)>(s: seq<K>, x: K)
    requires Distinct(s)
    ensures Distinct(Without(s, x)) && |Without(s, x)| == |s| - (if x in s then 1 else 0)
  {
    if s == [] {
    } else {
      var n := |s| - 1;
      LastApart(s);
      WithoutDistinct(s[..n], x);
      AppendDistinct(Without(s[..n], x), s[n]);
    }
  }

  lemma FirstApart<K(!new)>(s: seq<K>)
    requires Distinct(s) && s != []
    ensures Distinct(s[1..]) && forall y :: y in s[1..] <==> y in s && y != s[0]
  {
    assert s == [s[0]] + s[1..];
  }

  /** The ordered dictionary: its keys from the oldest to the most recent, and their values. */
  datatype Cache<K, V> = Cache(order: seq<K>, values: map<K, V>)

  ghost predicate Wf<K(!new), V>(c: Cache<K, V>) {
    Distinct(c.order) && forall k :: k in c.order <==> k in c.values
  }

  /** `move_to_end`. */
  function Touch<K(==, !new), V>(c: Cache<K, V>, key: K): Cache<K, V> {
    c.(order := Without(c.order, key) + [key])
  }

  function AfterGet<K(==, !new), V>(c: Cache<K, V>, key: K): Cache<K, V> {
    if key in c.values then Touch(c, key) else c
  }

  function AfterSet<K(==, !new), V>(c: Cache<K, V>, maxsize: nat, key: K, value: V): Cache<K, V> {
    if key in c.values then Touch(c, key).(values := c.values[key := value])
    else
      var order, values := c.order + [key], c.values[key := value];
      if |order| > maxsize then Cache(order[1..], values - {order[0]}) else Cache(order, values)
  }

  function AfterDelete<K(==, !new), V>(c: Cache<K, V>, key: K): Cache<K, V> {
    if key in c.values then Cache(Without(c.order, key), c.values - {key}) else c
  }

  // ---------------------------------------------------------------- runs

  datatype Op<K, V> = Get(key: K) | Set(key: K, value: V) | Delete(key: K)

  function Apply<K(==, !new), V>(c: Cache<K, V>, maxsize: nat, op: Op<K, V>): Cache<K, V> {
    match op
    case Get(key) => AfterGet(c, key)
    case Set(key, value) => AfterSet(c, maxsize, key, value)
    case Delete(key) => AfterDelete(c, key)
  }

  /** The dictionary after a sequence of operations. */
  function Run<K(==, !new), V>(maxsize: nat, ops: seq<Op<K, V>>): Cache<K, V> {
    if ops == [] then Cache([], map[]) else Apply(Run(maxsize, ops[..|ops| - 1]), maxsize, ops[|ops| - 1])
  }

  lemma TouchWf<K(!new), V>(c: Cache<K, V>, key: K)
    requires Wf(c) && key in c.values
    ensures Wf(Touch(c, key)) && |Touch(c, key).order| == |c.order|
  {
    WithoutDistinct(c.order, key);
  }

  lemma SetWf<K(!new), V>(c: Cache<K, V>, maxsize: nat, key: K, value: V)
    requires Wf(c) && |c.order| <= maxsize && maxsize > 0
    ensures Wf(AfterSet(c, maxsize, key, value)) && |AfterSet(c, maxsize, key, value).order| <= maxsize
  {
    if key in c.values {
      TouchWf(c, key);
    } else {
      FirstApart(c.order + [key]);
    }
  }

  lemma ApplyWf<K(!new), V>(c: Cache<K, V>, maxsize: nat, op: Op<K, V>)
    requires Wf(c) && |c.order| <= maxsize && maxsize > 0
    ensures Wf(Apply(c, maxsize, op)) && |Apply(c, maxsize, op).order| <= maxsize
  {
    match op
    case Get(key) => if key in c.values { TouchWf(c, key); }
    case Set(key, value) => SetWf(c, maxsize, key, value);
    case Delete(key) => WithoutDistinct(c.order, key);
  }

  lemma {:induction false} RunWf<K(!new), V>(maxsize: nat, ops: seq<Op<K, V>>)
    requires maxsize > 0
    ensures Wf(Run(maxsize, ops)) && |Run(maxsize, ops).order| <= maxsize
  {
    if ops == [] {
    } else {
      var n := |ops| - 1;
      RunWf(maxsize, ops[..n]);
      ApplyWf(Run(maxsize, ops[..n]), maxsize, ops[n]);
    }
  }

  // ---------------------------------------------------------------- recency and contents

  /** The position of the last operation that set or got the key, or -1. */
  function LastUse<K(==, !new), V>(ops: seq<Op<K, V>>, key: K): (r: int)
    ensures -1 <= r < |ops|
  {
    if ops == [] then -1 else
      var n := |ops| - 1;
      if !ops[n].Delete? && ops[n].key == key then n else LastUse(ops[..n], key)
  }

  /** The last value the key was set to. */
  function LastSet<K(==, !new), V>(ops: seq<Op<K, V>>, key: K): Option<V> {
    if ops == [] then None else
      var n := |ops| - 1;
      if ops[n].Set? && ops[n].key == key then Some(ops[n].value) else LastSet(ops[..n], key)
  }

  /** The keys are in the order of their last use. */
  ghost predicate Rising<K(!new), V>(ops: seq<Op<K, V>>, s: seq<K>) {
    forall i, j :: 0 <= i < j < |s| ==> LastUse(ops, s[i]) < LastUse(ops, s[j])
  }

  lemma {:induction false} RisingWithout<K(!new), V>(ops: seq<Op<K, V>>, s: seq<K>, x: K)
    requires Rising(ops, s)
    ensures Rising(ops, Without(s, x))
  {
    if s == [] {
    } else {
      var n := |s| - 1;
      RisingWithout(ops, s[..n], x);
      RisingAppend(ops, s, Without(s[..n], x));
    }
  }

  lemma RisingAppend<K(!new), V>(ops: seq<Op<K, V>>, s: seq<K>, r: seq<K>)
    requires s != [] && Rising(ops, s) && Rising(ops, r) && forall y :: y in r ==> y in s[..|s| - 1]
    ensures Rising(ops, r + [s[|s| - 1]])
  {
    forall i | 0 <= i < |r| ensures LastUse(ops, r[i]) < LastUse(ops, s[|s| - 1]) {
      assert r[i] in r;
      var j :| 0 <= j < |s| - 1 && s[j] == r[i];
    }
  }

  /** An operation on one key leaves the last use of the others where it was. */
  lemma UseOfOthers<K(!new), V>(ops: seq<Op<K, V>>, op: Op<K, V>, key: K)
    ensures key != op.key || op.Delete? ==> LastUse(ops + [op], key) == LastUse(ops, key)
    ensures key == op.key && !op.Delete? ==> LastUse(ops + [op], key) == |ops|
    ensures key != op.key || !op.Set? ==> LastSet(ops + [op], key) == LastSet(ops, key)
  {
    assert (ops + [op])[..|ops|] == ops;
  }

  lemma RisingKept<K(!new), V>(ops: seq<Op<K, V>>, op: Op<K, V>, s: seq<K>)
    requires Rising(ops, s) && (op.key !in s || op.Delete?)
    ensures Rising(ops + [op], s)
    ensures !op.Delete? ==> Rising(ops + [op], s + [op.key])
  {
    forall i, j | 0 <= i < j < |s| ensures LastUse(ops + [op], s[i]) < LastUse(ops + [op], s[j]) {
      UseOfOthers(ops, op, s[i]);
      UseOfOthers(ops, op, s[j]);
    }
    forall i | 0 <= i < |s| ensures !op.Delete? ==> LastUse(ops + [op], s[i]) < LastUse(ops + [op], op.key) {
      UseOfOthers(ops, op, s[i]);
      UseOfOthers(ops, op, op.key);
    }
  }

  /** What the dictionary holds, explained by the operations alone. */
  ghost predicate Recent<K(!new), V>(ops: seq<Op<K, V>>, c: Cache<K, V>) {
    && Rising(ops, c.order)
    && forall k :: k in c.values ==> LastSet(ops, k) == Some(c.values[k])
  }

  lemma StepOrder<K(!new), V>(maxsize: nat, ops: seq<Op<K, V>>, op: Op<K, V>, c: Cache<K, V>)
    requires Wf(c) && maxsize > 0 && Rising(ops, c.order)
    ensures Rising(ops + [op], Apply(c, maxsize, op).order)
  {
    if op.key in c.values {
      RisingWithout(ops, c.order, op.key);
      RisingKept(ops, op, Without(c.order, op.key));
    } else {
      RisingKept(ops, op, c.order);
    }
  }

  lemma StepValues<K(!new), V>(maxsize: nat, ops: seq<Op<K, V>>, op: Op<K, V>, c: Cache<K, V>)
    requires forall k :: k in c.values ==> LastSet(ops, k) == Some(c.values[k])
    ensures forall k :: k in Apply(c, maxsize, op).values ==>
      LastSet(ops + [op], k) == Some(Apply(c, maxsize, op).values[k])
  {
    forall k | k in Apply(c, maxsize, op).values
      ensures LastSet(ops + [op], k) == Some(Apply(c, maxsize, op).values[k])
    {
      UseOfOthers(ops, op, k);
    }
  }

  /** After every run the keys are in order of last use, at most `maxsize` of them, with the values last set. */
  lemma {:induction false} RunIsRecent<K(!new), V>(maxsize: nat, ops: seq<Op<K, V>>)
    requires maxsize > 0
    ensures |Run(maxsize, ops).order| <= maxsize && Recent(ops, Run(maxsize, ops))
  {
    RunWf(maxsize, ops);
    if ops == [] {
    } else {
      var n := |ops| - 1;
      RunIsRecent(maxsize, ops[..n]);
      RunWf(maxsize, ops[..n]);
      assert ops == ops[..n] + [ops[n]];
      StepOrder(maxsize, ops[..n], ops[n], Run(maxsize, ops[..n]));
      StepValues(maxsize, ops[..n], ops[n], Run(maxsize, ops[..n]));
    }
  }

  /** Each operation loses at most one key: the one deleted, or the least recently used one of a full cache. */
  lemma LosesOnlyLeastRecent<K(!new), V>(maxsize: nat, ops: seq<Op<K, V>>, op: Op<K, V>, k: K)
    requires maxsize > 0 && k in Run(maxsize, ops).values
    ensures
      var after := Run(maxsize, ops + [op]);
      k !in after.values ==>
        || op == Delete(k)
        || (op.Set? && |after.order| == maxsize && op.key in after.values &&
            forall j :: j in after.values ==> LastUse(ops, k) < LastUse(ops + [op], j))
  {
    var c := Run(maxsize, ops);
    assert (ops + [op])[..|ops|] == ops;
    RunWf(maxsize, ops);
    RunIsRecent(maxsize, ops);
    if op.Set? && op.key !in c.values && |c.order| == maxsize {
      var order := c.order + [op.key];
      FirstApart(order);
      if k == order[0] {
        forall j | j in order[1..] ensures LastUse(ops, k) < LastUse(ops + [op], j) {
          UseOfOthers(ops, op, j);
        }
      }
    }
  }

  /** Each operation adds at most one key: the one that is set. */
  lemma GainsOnlySet<K(!new), V>(maxsize: nat, ops: seq<Op<K, V>>, op: Op<K, V>, k: K)
    requires maxsize > 0
    ensures
      var (before, after) := (Run(maxsize, ops).values, Run(maxsize, ops + [op]).values);
      && (k in after && k !in before ==> op.Set? && k == op.key)
      && (op.Set? && k == op.key ==> k in after && after[k] == op.value)
  {
    assert (ops + [op])[..|ops|] == ops;
    RunWf(maxsize, ops);
  }

  // ---------------------------------------------------------------- a larger cache contains a smaller one

  /** `a` can be had from `b` by leaving out elements. */
  ghost predicate Subsequence<K>(a: seq<K>, b: seq<K>) {
    if a == [] then true
    else if b == [] then false
    else if a[|a| - 1] == b[|b| - 1] then Subsequence(a[..|a| - 1], b[..|b| - 1])
    else Subsequence(a, b[..|b| - 1])
  }

  lemma {:induction false} SubElements<K(!new)>(a: seq<K>, b: seq<K>)
    requires Subsequence(a, b)
    ensures forall x :: x in a ==> x in b
    ensures |a| <= |b|
    decreases |b|
  {
    if a == [] {
    } else {
      var (m, n) := (|a| - 1, |b| - 1);
      assert a == a[..m] + [a[m]] && b == b[..n] + [b[n]];
      if a[m] == b[n] {
        SubElements(a[..m], b[..n]);
      } else {
        SubElements(a, b[..n]);
      }
    }
  }

  lemma SubAppend<K(!new)>(a: seq<K>, b: seq<K>, x: K)
    requires Subsequence(a, b)
    ensures Subsequence(a + [x], b + [x])
  {
    assert (a + [x])[..|a|] == a && (b + [x])[..|b|] == b;
  }

  lemma {:induction false} SubWithout<K(!new)>(a: seq<K>, b: seq<K>, x: K)
    requires Subsequence(a, b)
    ensures Subsequence(Without(a, x), Without(b, x))
    decreases |b|
  {
    if a == [] {
    } else {
      var (m, n) := (|a| - 1, |b| - 1);
      if a[m] == b[n] {
        SubWithout(a[..m], b[..n], x);
        if b[n] != x {
          SubAppend(Without(a[..m], x), Without(b[..n], x), b[n]);
        }
      } else {
        SubWithout(a, b[..n], x);
        if b[n] != x {
          SubLonger(Without(a, x), Without(b[..n], x), b[n]);
        }
      }
    }
  }

  lemma {:induction false} SubLonger<K(!new)>(a: seq<K>, b: seq<K>, x: K)
    requires Subsequence(a, b)
    ensures Subsequence(a, b + [x])
    decreases |b|, 1
  {
    assert (b + [x])[..|b|] == b;
    if a != [] && a[|a| - 1] == x {
      SubShorter(a, b);
    }
  }

  lemma {:induction false} SubShorter<K(!new)>(a: seq<K>, b: seq<K>)
    requires a != [] && Subsequence(a, b)
    ensures Subsequence(a[..|a| - 1], b)
    decreases |b|, 0
  {
    var (m, n) := (|a| - 1, |b| - 1);
    assert b == b[..n] + [b[n]];
    if a[m] == b[n] {
      SubLonger(a[..m], b[..n], b[n]);
    } else {
      SubShorter(a, b[..n]);
      SubLonger(a[..m], b[..n], b[n]);
    }
  }

  lemma {:induction false} SubTail<K(!new)>(a: seq<K>, b: seq<K>)
    requires a != [] && Subsequence(a, b)
    ensures Subsequence(a[1..], b)
    decreases |b|
  {
    var (m, n) := (|a| - 1, |b| - 1);
    if m == 0 {
      assert a[1..] == [];
    } else if a[m] == b[n] {
      SubTail(a[..m], b[..n]);
      TailMatched(a, b);
    } else {
      SubTail(a, b[..n]);
      TailSkipped(a, b);
    }
  }

  lemma TailMatched<K(!new)>(a: seq<K>, b: seq<K>)
    requires |a| > 1 && b != [] && a[|a| - 1] == b[|b| - 1] && Subsequence(a[..|a| - 1][1..], b[..|b| - 1])
    ensures Subsequence(a[1..], b)
  {
    var (m, n) := (|a| - 1, |b| - 1);
    assert a[1..][..m - 1] == a[..m][1..];
  }

  lemma TailSkipped<K(!new)>(a: seq<K>, b: seq<K>)
    requires a != [] && b != [] && Subsequence(a[1..], b[..|b| - 1])
    ensures Subsequence(a[1..], b)
  {
    var n := |b| - 1;
    SubLonger(a[1..], b[..n], b[n]);
    assert b == b[..n] + [b[n]];
  }

  /** If the oldest of `b` is in `a`, it is the oldest there too. */
  lemma {:induction false} OldestFirst<K(!new)>(a: seq<K>, b: seq<K>)
    requires Subsequence(a, b) && Distinct(b) && b != [] && b[0] in a
    ensures a[0] == b[0]
    decreases |b|
  {
    var (m, n) := (|a| - 1, |b| - 1);
    assert a == a[..m] + [a[m]];
    if a[m] != b[n] {
      OldestFirst(a, b[..n]);
    } else if n > 0 {
      OldestFirst(a[..m], b[..n]);
    }
  }

  /** Dropping the oldest of both. */
  lemma SubDropBoth<K(!new)>(a: seq<K>, b: seq<K>)
    requires Subsequence(a, b) && a != [] && b != [] && Distinct(a) && Distinct(b)
    ensures Subsequence(a[1..], b[1..])
  {
    SubWithout(a, b, b[0]);
    WithoutFirst(b);
    if b[0] in a {
      OldestFirst(a, b);
      WithoutFirst(a);
    } else {
      SubTail(a, b[1..]);
    }
  }

  lemma {:induction false} WithoutFirst<K(!new)>(s: seq<K>)
    requires Distinct(s) && s != []
    ensures Without(s, s[0]) == s[1..]
  {
    var n := |s| - 1;
    if n == 0 {
    } else {
      WithoutFirst(s[..n]);
      assert s[1..] == s[..n][1..] + [s[n]];
    }
  }

  /** What relates a smaller cache to a larger one that has seen the same operations. */
  ghost predicate Included<K(!new), V>(small: Cache<K, V>, m: nat, large: Cache<K, V>, n: nat) {
    && Subsequence(small.order, large.order)
    && |large.order| - |small.order| <= n - m
    && forall k :: k in small.values ==> k in large.values && small.values[k] == large.values[k]
  }

  lemma InclusionGet<K(!new), V>(small: Cache<K, V>, m: nat, large: Cache<K, V>, n: nat, key: K)
    requires Wf(small) && Wf(large) && Included(small, m, large, n)
    ensures Included(AfterGet(small, key), m, AfterGet(large, key), n)
  {
    WithoutDistinct(small.order, key);
    WithoutDistinct(large.order, key);
    if key in large.values {
      SubWithout(small.order, large.order, key);
      if key in small.values {
        SubAppend(Without(small.order, key), Without(large.order, key), key);
      } else {
        SubLonger(small.order, Without(large.order, key), key);
      }
    }
  }

  lemma InclusionDelete<K(!new), V>(small: Cache<K, V>, m: nat, large: Cache<K, V>, n: nat, key: K)
    requires Wf(small) && Wf(large) && Included(small, m, large, n)
    ensures Included(AfterDelete(small, key), m, AfterDelete(large, key), n)
  {
    WithoutDistinct(small.order, key);
    WithoutDistinct(large.order, key);
    SubWithout(small.order, large.order, key);
  }

  /** Values agree once the orders are included and agree on what both hold. */
  lemma IncludedFromOrder<K(!new), V>(small: Cache<K, V>, m: nat, large: Cache<K, V>, n: nat)
    requires Wf(small) && Wf(large) && Subsequence(small.order, large.order)
    requires |large.order| - |small.order| <= n - m
    requires forall k :: k in small.values && k in large.values ==> small.values[k] == large.values[k]
    ensures Included(small, m, large, n)
  {
    SubElements(small.order, large.order);
  }

  lemma SetOrder<K(!new)>(a: seq<K>, m: nat, b: seq<K>, n: nat)
    requires Distinct(a) && Distinct(b) && a != [] && b != [] && Subsequence(a, b) && m <= n
    requires |a| <= m + 1 && |b| <= n + 1 && |b| - |a| <= n - m
    ensures
      var (a', b') := (if |a| > m then a[1..] else a, if |b| > n then b[1..] else b);
      Subsequence(a', b') && |b'| - |a'| <= n - m
  {
    if |a| > m {
      SubTail(a, b);
      if |b| > n {
        SubDropBoth(a, b);
      }
    }
  }

  lemma InclusionSet<K(!new), V>(small: Cache<K, V>, m: nat, large: Cache<K, V>, n: nat, key: K, value: V)
    requires Wf(small) && Wf(large) && Included(small, m, large, n) && 0 < m <= n
    requires |small.order| <= m && |large.order| <= n
    ensures Included(AfterSet(small, m, key, value), m, AfterSet(large, n, key, value), n)
  {
    SetWf(small, m, key, value);
    SetWf(large, n, key, value);
    SetOrders(small, m, large, n, key, value);
    IncludedFromOrder(AfterSet(small, m, key, value), m, AfterSet(large, n, key, value), n);
  }

  /** The orders before anything is dropped: both have the key last. */
  lemma AppendedOrders<K(!new)>(a: seq<K>, b: seq<K>, key: K)
    requires Distinct(a) && Distinct(b) && Subsequence(a, b)
    ensures Subsequence(Without(a, key) + [key], Without(b, key) + [key])
    ensures |Without(a, key)| == |a| - (if key in a then 1 else 0)
    ensures |Without(b, key)| == |b| - (if key in b then 1 else 0)
  {
    WithoutDistinct(a, key);
    WithoutDistinct(b, key);
    SubWithout(a, b, key);
    SubAppend(Without(a, key), Without(b, key), key);
  }

  /** What setting a key does to the order alone. */
  ghost function OrderAfterSet<K(!new)>(order: seq<K>, maxsize: nat, key: K): seq<K> {
    if key in order then Without(order, key) + [key]
    else if |order| < maxsize then order + [key]
    else (order + [key])[1..]
  }

  lemma KnownToLarge<K(!new)>(a: seq<K>, m: nat, b: seq<K>, key: K)
    requires Distinct(a) && Distinct(b) && Subsequence(a, b) && key in b
    ensures Subsequence(OrderAfterSet(a, m, key), OrderAfterSet(b, |b|, key))
  {
    AppendedOrders(a, b, key);
    if key !in a {
      SubTail(a + [key], Without(b, key) + [key]);
    }
  }

  lemma NewToBoth<K(!new)>(a: seq<K>, m: nat, b: seq<K>, n: nat, key: K)
    requires Distinct(a) && Distinct(b) && Subsequence(a, b) && key !in b && 0 < m <= n
    requires |a| <= m && |b| <= n && |b| - |a| <= n - m
    ensures key !in a && Subsequence(OrderAfterSet(a, m, key), OrderAfterSet(b, n, key))
  {
    SubElements(a, b);
    SubAppend(a, b, key);
    SetOrder(a + [key], m, b + [key], n);
  }

  lemma LengthAfterSet<K(!new)>(order: seq<K>, maxsize: nat, key: K)
    requires Distinct(order) && |order| <= maxsize
    ensures |OrderAfterSet(order, maxsize, key)| == if key in order || |order| == maxsize then |order| else |order| + 1
  {
    WithoutDistinct(order, key);
  }

  lemma SetOrders<K(!new), V>(small: Cache<K, V>, m: nat, large: Cache<K, V>, n: nat, key: K, value: V)
    requires Wf(small) && Wf(large) && Included(small, m, large, n) && 0 < m <= n
    requires |small.order| <= m && |large.order| <= n
    ensures Subsequence(AfterSet(small, m, key, value).order, AfterSet(large, n, key, value).order)
    ensures |AfterSet(large, n, key, value).order| - |AfterSet(small, m, key, value).order| <= n - m
  {
    assert AfterSet(small, m, key, value).order == OrderAfterSet(small.order, m, key);
    assert AfterSet(large, n, key, value).order == OrderAfterSet(large.order, n, key);
    LengthAfterSet(small.order, m, key);
    LengthAfterSet(large.order, n, key);
    if key in large.order {
      KnownToLarge(small.order, m, large.order, key);
    } else {
      NewToBoth(small.order, m, large.order, n, key);
    }
  }

  /** Fed the same operations, a cache of size `m` holds an order-preserving part of what one of size `n >= m` holds. */
  lemma {:induction false} Inclusion<K(!new), V>(m: nat, n: nat, ops: seq<Op<K, V>>)
    requires 0 < m <= n
    ensures Included(Run(m, ops), m, Run(n, ops), n)
  {
    if ops == [] {
    } else {
      var i := |ops| - 1;
      Inclusion(m, n, ops[..i]);
      RunWf(m, ops[..i]);
      RunWf(n, ops[..i]);
      var (small, large) := (Run(m, ops[..i]), Run(n, ops[..i]));
      match ops[i]
      case Get(key) => InclusionGet(small, m, large, n, key);
      case Set(key, value) => InclusionSet(small, m, large, n, key, value);
      case Delete(key) => InclusionDelete(small, m, large, n, key);
    }
  }

  // ---------------------------------------------------------------- the mapping

  lemma RunNext<K(!new), V>(maxsize: nat, ops: seq<Op<K, V>>, op: Op<K, V>)
    requires maxsize > 0
    ensures Run(maxsize, ops + [op]) == Apply(Run(maxsize, ops), maxsize, op)
    ensures Wf(Run(maxsize, ops)) && |Run(maxsize, ops).order| <= maxsize
  {
    assert (ops + [op])[..|ops|] == ops;
    RunWf(maxsize, ops);
  }

  /** `history` is what has been done to the mapping since it was made. */
  class LRUMapping<K(==, !new), V> {
    var dict: Cache<K, V>
    const maxsize: nat
    ghost var history: seq<Op<K, V>>

    ghost predicate Valid()
      reads this
    {
      maxsize > 0 && dict == Run(maxsize, history)
    }

    /** Sizes below one are refused with a ValueError, here null. */
    static method Create(maxsize: int) returns (c: LRUMapping?<K, V>)
      ensures c == null <==> maxsize <= 0
      ensures c != null ==> fresh(c) && c.Valid() && c.maxsize == maxsize && c.history == []
    {
      if maxsize <= 0 {
        return null;
      }
      c := new LRUMapping(maxsize);
    }

    constructor (maxsize: nat)
      requires maxsize > 0
      ensures Valid() && this.maxsize == maxsize && history == []
    {
      this.maxsize := maxsize;
      dict := Cache([], map[]);
      history := [];
    }

    /** `__getitem__`; None is a KeyError. */
    method GetItem(key: K) returns (r: Option<V>)
      requires Valid()
      modifies this
      ensures Valid() && history == old(history) + [Get(key)]
      ensures |dict.order| <= maxsize && Recent(history, dict)
      ensures r == if key in old(dict).values then Some(old(dict).values[key]) else None
      ensures r.Some? ==> LastSet(history, key) == r
    {
      RunNext(maxsize, history, Get(key));
      history := history + [Get(key)];
      RunIsRecent(maxsize, history);
      if key !in dict.values {
        return None;
      }
      r := Some(dict.values[key]);
      dict := dict.(order := Without(dict.order, key) + [key]);
    }

    /** `__setitem__`. */
    method SetItem(key: K, value: V)
      requires Valid()
      modifies this
      ensures Valid() && history == old(history) + [Set(key, value)]
      ensures |dict.order| <= maxsize && Recent(history, dict) && key in dict.values && dict.values[key] == value
    {
      RunNext(maxsize, history, Set(key, value));
      history := history + [Set(key, value)];
      RunIsRecent(maxsize, history);
      if key in dict.values {
        dict := dict.(values := dict.values[key := value]);
        dict := dict.(order := Without(dict.order, key) + [key]);
      } else {
        dict := Cache(dict.order + [key], dict.values[key := value]);
        if |dict.order| > maxsize {
          dict := Cache(dict.order[1..], dict.values - {dict.order[0]});
        }
      }
    }

    /** `__delitem__`; false is a KeyError. */
    method DelItem(key: K) returns (ok: bool)
      requires Valid()
      modifies this
      ensures Valid() && history == old(history) + [Delete(key)]
      ensures |dict.order| <= maxsize && Recent(history, dict) && key !in dict.values
      ensures ok == (key in old(dict).values)
    {
      RunNext(maxsize, history, Delete(key));
      history := history + [Delete(key)];
      RunIsRecent(maxsize, history);
      ok := key in dict.values;
      if ok {
        dict := Cache(Without(dict.order, key), dict.values - {key});
      }
    }
  }
}
