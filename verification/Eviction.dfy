/** The statistics hashtable of edb_stat_statements.c: entry_alloc and entry_dealloc. */
module Eviction {
  import opened Collections
  import opened QueryTexts

  const ASSUMED_MEDIAN_INIT: real := 10.0
  const USAGE_INIT: real := 1.0
  const USAGE_DEALLOC_PERCENT: nat := 5

  /** `rest` stands for the statistics that are only ever copied as a whole. */
  datatype PgssEntry =
    PgssEntry(loc: Loc, encoding: int, planCalls: nat, execCalls: nat, usage: real, rest: int)

  type Entries = map<HashKey, PgssEntry>

  /** pgssGlobalStats: the number of evictions, and when statistics were last reset. */
  datatype GlobalStats = GlobalStats(dealloc: nat, statsReset: int)

  /** The statement was seen but has not run yet. */
  predicate IsSticky(e: PgssEntry) {
    e.planCalls + e.execCalls == 0
  }

  function Decayed(e: PgssEntry): PgssEntry {
    if IsSticky(e) then e.(usage := e.usage * 0.50) else e.(usage := e.usage * 0.99)
  }

  function NewEntry(loc: Loc, encoding: int, sticky: bool, medianUsage: real): PgssEntry {
    PgssEntry(loc, encoding, 0, 0, if sticky then medianUsage else USAGE_INIT, 0)
  }

  predicate SameStats(a: PgssEntry, b: PgssEntry) {
    a.(usage := 0.0) == b.(usage := 0.0)
  }

  /** Entries of `t`, unchanged except for their usage. */
  ghost predicate Subtable(t': Entries, t: Entries) {
    forall k :: k in t' ==> k in t && SameStats(t'[k], t[k])
  }

  /** Evicting from `n` entries: ten of them, or one in twenty if that is more, or all if there are fewer. */
  ghost predicate EvictedShare(n: nat, removed: int) {
    && (n <= 10 ==> removed == n)
    && (10 <= n < 200 ==> removed == 10)
    && (n >= 200 ==> 20 * removed <= n < 20 * (removed + 1))
  }

  function NumVictims(n: nat): (v: nat)
    ensures EvictedShare(n, v)
  {
    var percent := n * USAGE_DEALLOC_PERCENT / 100;
    var v := if 10 > percent then 10 else percent;
    if v < n then v else n
  }

  /** The keys of a table in some order. */
  ghost predicate Enumerates(order: seq<HashKey>, t: Entries) {
    Distinct(order) && forall k :: k in order <==> k in t
  }

  ghost predicate ByUsage(order: seq<HashKey>, t: Entries) {
    && (forall k :: k in order ==> k in t)
    && forall i, j :: 0 <= i < j < |order| ==> t[order[i]].usage <= t[order[j]].usage
  }

  /** The total length of the texts of the given entries and their number, ignoring dropped ones. */
  ghost predicate Totals(order: seq<HashKey>, t: Entries, total: nat, valid: nat)
    decreases |order|
  {
    if order == [] then total == 0 && valid == 0 else
    var k := order[|order| - 1];
    && k in t
    && TextSize(t[k]) <= total && TextCount(t[k]) <= valid
    && Totals(order[..|order| - 1], t, total - TextSize(t[k]), valid - TextCount(t[k]))
  }

  /** The query text of an entry with its NUL; a dropped text is not counted. */
  function TextSize(e: PgssEntry): nat {
    if e.loc.queryLen >= 0 then e.loc.queryLen + 1 else 0
  }

  function TextCount(e: PgssEntry): nat {
    if e.loc.queryLen >= 0 then 1 else 0
  }

  lemma TotalsNext(order: seq<HashKey>, t: Entries, total: nat, valid: nat, k: HashKey)
    requires Totals(order, t, total, valid) && k in t
    ensures Totals(order + [k], t, total + TextSize(t[k]), valid + TextCount(t[k]))
  {
    assert (order + [k])[..|order|] == order;
  }

  /** The mean length of the texts of a table. */
  ghost predicate IsMeanTextLen(mean: nat, t: Entries) {
    exists order, total: nat, valid: nat ::
      Enumerates(order, t) && Totals(order, t, total, valid) && mean == MeanLength(total, valid)
  }

  ghost function DecayAll(t: Entries): Entries {
    map k | k in t :: Decayed(t[k])
  }

  /** Every entry keeps its statistics, and its usage decays: fast if the statement has not run yet. */
  lemma DecayOf(t: Entries, k: HashKey)
    requires k in t
    ensures k in DecayAll(t) && SameStats(DecayAll(t)[k], t[k])
    ensures DecayAll(t)[k].usage == t[k].usage * if t[k].planCalls > 0 || t[k].execCalls > 0 then 0.99 else 0.50
  {
  }

  lemma {:induction false} EnumerationSize(order: seq<HashKey>, t: Entries)
    requires Enumerates(order, t)
    ensures |order| == |t|
    decreases |order|
  {
    assert |t| == |t.Keys|;
    if order == [] {
      if k :| k in t {
        assert k in order;
      }
    } else {
      var n := |order| - 1;
      var t' := map k | k in t && k != order[n] :: t[k];
      assert t'.Keys == t.Keys - {order[n]};
      EnumerationSize(order[..n], t');
    }
  }

  /** qsort: any order of the keys by increasing usage will do. */
  method SortByUsage(keys: seq<HashKey>, t: Entries) returns (order: seq<HashKey>)
    requires Enumerates(keys, t)
    ensures Enumerates(order, t) && ByUsage(order, t)
  {
    order := [];
    for i := 0 to |keys|
      invariant Distinct(order)
      invariant forall k :: k in order <==> k in keys[..i]
      invariant ByUsage(order, t)
    {
      assert keys[..i + 1] == keys[..i] + [keys[i]];
      assert keys[i] in keys;
      order := InsertByUsage(order, t, keys[i]);
    }
    assert keys[..|keys|] == keys;
  }

  function Inserted(order: seq<HashKey>, p: nat, k: HashKey): (r: seq<HashKey>)
    requires p <= |order|
    ensures |r| == |order| + 1 && r[p] == k
    ensures forall i :: 0 <= i < p ==> r[i] == order[i]
    ensures forall i :: p < i < |r| ==> r[i] == order[i - 1]
    ensures forall k' :: k' in r <==> k' in order || k' == k
  {
    assert order == order[..p] + order[p..];
    order[..p] + [k] + order[p..]
  }

  method InsertByUsage(order: seq<HashKey>, t: Entries, k: HashKey) returns (r: seq<HashKey>)
    requires k in t && k !in order && ByUsage(order, t) && Distinct(order)
    ensures Distinct(r) && ByUsage(r, t)
    ensures forall k' :: k' in r <==> k' in order || k' == k
  {
    var p := 0;
    while p < |order| && t[order[p]].usage < t[k].usage
      invariant 0 <= p <= |order|
      invariant p > 0 ==> t[order[p - 1]].usage < t[k].usage
    {
      p := p + 1;
    }
    r := Inserted(order, p, k);
    InsertedUnrepeated(order, p, k);
    InsertedByUsage(order, t, p, k);
  }

  lemma InsertedUnrepeated(order: seq<HashKey>, p: nat, k: HashKey)
    requires k !in order && Distinct(order) && p <= |order|
    ensures Distinct(Inserted(order, p, k))
  {
    var r := Inserted(order, p, k);
    forall i, j | 0 <= i < j < |r| ensures r[i] != r[j] {
      var (i', j') := (if i < p then i else i - 1, if j < p then j else j - 1);
      if i == p {
        assert order[j'] in order;
      } else if j == p {
        assert order[i'] in order;
      } else {
        assert order[i'] != order[j'];
      }
    }
  }

  /** The new key is used no less than all before it and no more than all after it. */
  lemma InsertionPoint(order: seq<HashKey>, t: Entries, p: nat, k: HashKey, i: nat)
    requires k in t && ByUsage(order, t) && p <= |order| && i < |order|
    requires p > 0 ==> t[order[p - 1]].usage < t[k].usage
    requires p < |order| ==> t[k].usage <= t[order[p]].usage
    ensures if i < p then t[order[i]].usage <= t[k].usage else t[k].usage <= t[order[i]].usage
  {
    if i < p - 1 {
      assert t[order[i]].usage <= t[order[p - 1]].usage;
    } else if i > p {
      assert t[order[p]].usage <= t[order[i]].usage;
    }
  }

  lemma InsertedByUsage(order: seq<HashKey>, t: Entries, p: nat, k: HashKey)
    requires k in t && ByUsage(order, t) && p <= |order|
    requires p > 0 ==> t[order[p - 1]].usage < t[k].usage
    requires p < |order| ==> t[k].usage <= t[order[p]].usage
    ensures ByUsage(Inserted(order, p, k), t)
  {
    var r := Inserted(order, p, k);
    forall i, j | 0 <= i < j < |r| ensures t[r[i]].usage <= t[r[j]].usage {
      if i == p {
        InsertionPoint(order, t, p, k, j - 1);
      } else if j == p {
        InsertionPoint(order, t, p, k, i);
      } else {
        var (i', j') := (if i < p then i else i - 1, if j < p then j else j - 1);
        assert t[order[i']].usage <= t[order[j']].usage;
      }
    }
  }

  ghost function FirstKeys(order: seq<HashKey>, n: nat): set<HashKey>
    requires n <= |order|
  {
    if n == 0 then {} else FirstKeys(order, n - 1) + {order[n - 1]}
  }

  lemma {:induction false} IndexOf(order: seq<HashKey>, n: nat, k: HashKey) returns (i: nat)
    requires n <= |order| && k in FirstKeys(order, n)
    ensures i < n && order[i] == k
  {
    if k == order[n - 1] {
      i := n - 1;
    } else {
      i := IndexOf(order, n - 1, k);
    }
  }

  lemma {:induction false} KeyAt(order: seq<HashKey>, n: nat, i: nat)
    requires i < n <= |order|
    ensures order[i] in FirstKeys(order, n)
  {
    if i < n - 1 {
      KeyAt(order, n - 1, i);
    }
  }

  lemma {:induction false} FirstKeysWithin(order: seq<HashKey>, t: Entries, n: nat)
    requires n <= |order| && forall k :: k in order ==> k in t
    ensures FirstKeys(order, n) <= t.Keys
  {
    if n == 0 {
    } else {
      FirstKeysWithin(order, t, n - 1);
      assert order[n - 1] in order;
    }
  }

  lemma {:induction false} FirstKeysSize(order: seq<HashKey>, n: nat)
    requires n <= |order| && Distinct(order)
    ensures |FirstKeys(order, n)| == n
  {
    if n == 0 {
    } else {
      FirstKeysSize(order, n - 1);
      KeyIsNew(order, n - 1);
    }
  }

  lemma KeyIsNew(order: seq<HashKey>, n: nat)
    requires n < |order| && Distinct(order)
    ensures order[n] !in FirstKeys(order, n)
  {
    if order[n] in FirstKeys(order, n) {
      var i := IndexOf(order, n, order[n]);
    }
  }

  ghost function UsedLess(t: Entries, m: real): set<HashKey> {
    set k | k in t && t[k].usage < m
  }

  ghost function UsedMore(t: Entries, m: real): set<HashKey> {
    set k | k in t && t[k].usage > m
  }

  /** Some entry has usage `m`; at most half of the others are used less, and fewer than half more. */
  ghost predicate IsMedian(m: real, t: Entries) {
    && (exists k :: k in t && t[k].usage == m)
    && |UsedLess(t, m)| <= |t| / 2
    && |UsedMore(t, m)| < |t| - |t| / 2
  }

  lemma LessIsFirst(t: Entries, order: seq<HashKey>, h: nat, k: HashKey)
    requires ByUsage(order, t) && h < |order| && k in order && t[k].usage < t[order[h]].usage
    ensures k in FirstKeys(order, h)
  {
    var j :| 0 <= j < |order| && order[j] == k;
    KeyAt(order, h, j);
  }

  lemma FirstIsNotMore(t: Entries, order: seq<HashKey>, h: nat, k: HashKey)
    requires ByUsage(order, t) && h < |order| && k in FirstKeys(order, h + 1)
    ensures k in t && order[h] in t && t[k].usage <= t[order[h]].usage
  {
    var i := IndexOf(order, h + 1, k);
    assert order[i] in order && order[h] in order;
  }

  lemma AtMostHalfLess(t: Entries, order: seq<HashKey>, h: nat)
    requires Enumerates(order, t) && ByUsage(order, t) && h < |order|
    ensures order[h] in t && |UsedLess(t, t[order[h]].usage)| <= h
  {
    assert order[h] in order;
    var less := UsedLess(t, t[order[h]].usage);
    forall k | k in less ensures k in FirstKeys(order, h) {
      LessIsFirst(t, order, h, k);
    }
    FirstKeysSize(order, h);
    SubsetSize(less, FirstKeys(order, h));
  }

  lemma MoreIsNotFirst(t: Entries, order: seq<HashKey>, h: nat)
    requires ByUsage(order, t) && h < |order| && order[h] in t
    ensures UsedMore(t, t[order[h]].usage) !! FirstKeys(order, h + 1)
  {
    forall k | k in FirstKeys(order, h + 1) ensures k !in UsedMore(t, t[order[h]].usage) {
      FirstIsNotMore(t, order, h, k);
    }
  }

  lemma FewerThanHalfMore(t: Entries, order: seq<HashKey>, h: nat, m: real)
    requires Enumerates(order, t) && h < |order| && UsedMore(t, m) !! FirstKeys(order, h + 1)
    ensures |UsedMore(t, m)| < |t| - h
  {
    FirstKeysWithin(order, t, h + 1);
    FirstKeysSize(order, h + 1);
    DisjointSize(UsedMore(t, m), FirstKeys(order, h + 1), t.Keys);
    assert |t.Keys| == |t|;
  }

  lemma DifferenceSize(t: Entries, s: set<HashKey>)
    requires s <= t.Keys
    ensures |t.Keys - s| == |t - s| == |t| - |s|
  {
    assert (t - s).Keys == t.Keys - s;
    assert |t.Keys| == |t| && |(t - s).Keys| == |t - s|;
  }

  lemma MedianOf(t: Entries, order: seq<HashKey>)
    requires Enumerates(order, t) && ByUsage(order, t) && |order| == |t| > 0
    ensures order[|t| / 2] in t && IsMedian(t[order[|t| / 2]].usage, t)
  {
    assert order[|t| / 2] in order;
    AtMostHalfLess(t, order, |t| / 2);
    MoreIsNotFirst(t, order, |t| / 2);
    FewerThanHalfMore(t, order, |t| / 2, t[order[|t| / 2]].usage);
  }

  /** The entries that stay are unchanged, and no removed entry was used more than one that stays. */
  ghost predicate EvictsLeastUsed(t: Entries, t': Entries) {
    && (forall k :: k in t' ==> k in t && t'[k] == t[k])
    && forall k, v :: k in t' && v in t && v !in t' ==> t[v].usage <= t'[k].usage
  }

  /** The first entries in the order by usage are the ones to remove. */
  lemma VictimsUsedLess(t: Entries, order: seq<HashKey>, n: nat)
    requires Enumerates(order, t) && ByUsage(order, t) && n <= |order|
    ensures EvictsLeastUsed(t, t - FirstKeys(order, n)) && |t - FirstKeys(order, n)| == |t| - n
  {
    var (first, t') := (FirstKeys(order, n), t - FirstKeys(order, n));
    FirstKeysWithin(order, t, n);
    FirstKeysSize(order, n);
    DifferenceSize(t, first);
    forall k, v | k in t' && v in t && v !in t' ensures t[v].usage <= t[k].usage {
      VictimUsedLess(t, order, n, k, v);
    }
  }

  lemma VictimUsedLess(t: Entries, order: seq<HashKey>, n: nat, k: HashKey, v: HashKey)
    requires Enumerates(order, t) && ByUsage(order, t) && n <= |order|
    requires k in t && k !in FirstKeys(order, n) && v in t && v in FirstKeys(order, n)
    ensures t[v].usage <= t[k].usage
  {
    assert k in order;
    var j :| 0 <= j < |order| && order[j] == k;
    var i := IndexOf(order, n, v);
    if j < n {
      KeyAt(order, n, j);
    }
  }

  class Statements {
    const pgssMax: nat
    var table: Entries
    var curMedianUsage: real
    var meanQueryLen: nat
    var stats: GlobalStats

    ghost predicate Valid()
      reads this
    {
      0 < pgssMax && |table| <= pgssMax
    }

    constructor (pgssMax: nat, now: int)
      requires 0 < pgssMax
      ensures Valid() && this.pgssMax == pgssMax && table == map[] && stats == GlobalStats(0, now)
      ensures curMedianUsage == 10.0 && meanQueryLen == 1024
    {
      this.pgssMax := pgssMax;
      table, curMedianUsage, meanQueryLen := map[], ASSUMED_MEDIAN_INIT, ASSUMED_LENGTH_INIT;
      stats := GlobalStats(0, now);
    }

    method ScanEntry(k: HashKey, total: nat, valid: nat) returns (total': nat, valid': nat)
      requires k in table
      modifies this`table
      ensures table == old(table)[k := Decayed(old(table)[k])]
      ensures total' == total + TextSize(old(table)[k]) && valid' == valid + TextCount(old(table)[k])
    {
      var e := table[k];
      table := table[k := Decayed(e)];
      total', valid' := total, valid;
      if e.loc.queryLen >= 0 {
        total', valid' := total + e.loc.queryLen + 1, valid + 1;
      }
    }

    /** The scan of the table, in the order of the hashtable: decays the usage of every entry. */
    method Scan() returns (entries: seq<HashKey>, mean: nat)
      modifies this`table
      ensures table == DecayAll(old(table)) && Enumerates(entries, table)
      ensures IsMeanTextLen(mean, old(table))
    {
      var total: nat, valid: nat := 0, 0;
      entries := [];
      var todo := table.Keys;
      while todo != {}
        invariant Scanning(old(table), table, todo, entries)
        invariant Totals(entries, old(table), total, valid)
        decreases |todo|
      {
        var k :| k in todo;
        ScanNext(old(table), table, todo, entries, k);
        TotalsNext(entries, old(table), total, valid, k);
        total, valid := ScanEntry(k, total, valid);
        entries, todo := entries + [k], todo - {k};
      }
      ScanDone(old(table), table, entries);
      mean := MeanLength(total, valid);
    }

    /** Removes the first `n` entries in the given order. */
    method Zap(order: seq<HashKey>, n: nat)
      requires n <= |order| && Enumerates(order, table)
      modifies this`table
      ensures table == old(table) - FirstKeys(order, n)
    {
      for i := 0 to n
        invariant table == old(table) - FirstKeys(order, i)
      {
        table := table - {order[i]};
      }
    }

    /** What follows the scan: sorts the entries, records the median and removes the least used ones. */
    method EvictLeastUsed(entries: seq<HashKey>)
      requires Enumerates(entries, table)
      modifies this`table, this`curMedianUsage
      ensures EvictedShare(|old(table)|, |old(table)| - |table|)
      ensures EvictsLeastUsed(old(table), table)
      ensures if |old(table)| == 0 then curMedianUsage == old(curMedianUsage) else IsMedian(curMedianUsage, old(table))
    {
      var order := SortByUsage(entries, table);
      EnumerationSize(order, table);
      if |order| > 0 {
        MedianOf(table, order);
        curMedianUsage := table[order[|order| / 2]].usage;
      }
      var n := NumVictims(|order|);
      VictimsUsedLess(table, order, n);
      Zap(order, n);
    }

    /**
     Removes the least used entries.  No removed entry was used more than an entry that stays, and the entries that
     stay only decay.
     */
    method EntryDealloc()
      modifies this
      ensures EvictedShare(|old(table)|, |old(table)| - |table|)
      ensures EvictsLeastUsed(DecayAll(old(table)), table)
      ensures stats == old(stats).(dealloc := old(stats).dealloc + 1)
      ensures
        if |old(table)| == 0 then curMedianUsage == old(curMedianUsage)
        else IsMedian(curMedianUsage, DecayAll(old(table)))
      ensures IsMeanTextLen(meanQueryLen, old(table))
    {
      var entries, mean := Scan();
      DecaySize(old(table));
      EvictLeastUsed(entries);
      meanQueryLen := mean;
      stats := stats.(dealloc := stats.dealloc + 1);
    }

    /** What making space needs to know of an eviction. */
    method EvictionRound()
      requires |table| > 0
      modifies this
      ensures |table| < |old(table)| && Subtable(table, old(table)) && Evicted(old(table), table)
      ensures stats == old(stats).(dealloc := old(stats).dealloc + 1)
    {
      EntryDealloc();
      forall k | k in table ensures k in old(table) && SameStats(table[k], old(table)[k]) {
        DecayOf(old(table), k);
      }
    }

    /** Evicts until there is room for one more entry. */
    method MakeSpace()
      requires 0 < pgssMax
      modifies this
      ensures |table| < pgssMax && Subtable(table, old(table))
      ensures |old(table)| < pgssMax ==> stats == old(stats) && table == old(table)
      ensures |old(table)| == pgssMax ==>
        stats == old(stats).(dealloc := old(stats).dealloc + 1) && Evicted(old(table), table)
    {
      ghost var rounds := 0;
      while |table| >= pgssMax
        invariant Subtable(table, old(table))
        invariant rounds == 0 ==> table == old(table) && stats == old(stats)
        invariant |old(table)| < pgssMax ==> rounds == 0
        invariant |old(table)| == pgssMax && rounds > 0 ==>
            && |table| < pgssMax && Evicted(old(table), table)
            && stats == old(stats).(dealloc := old(stats).dealloc + 1)
        decreases |table|
      {
        EvictionRound();
        rounds := rounds + 1;
      }
    }

    /**
     Finds or creates an entry, after making space.  The table never exceeds pgss_max, making space ends, and an entry
     other than the wanted one is either gone or as before except for its usage.  A table that is just full loses one
     share of its least used entries.
     */
    method EntryAlloc(key: HashKey, loc: Loc, encoding: int, sticky: bool)
      requires 0 < pgssMax && loc.queryLen >= 0
      modifies this
      ensures Valid() && key in table
      ensures forall k :: k in table && k != key ==> k in old(table) && SameStats(table[k], old(table)[k])
      ensures
        || IsNew(table[key], loc, encoding, if sticky then curMedianUsage else 1.0)
        || (key in old(table) && SameStats(table[key], old(table)[key]))
      ensures key !in old(table) ==> IsNew(table[key], loc, encoding, if sticky then curMedianUsage else 1.0)
      ensures |old(table)| < pgssMax ==> stats == old(stats) && Added(old(table), key, table)
      ensures |old(table)| == pgssMax ==>
        && stats == old(stats).(dealloc := old(stats).dealloc + 1)
        && exists t :: Evicted(old(table), t) && Added(t, key, table)
    {
      MakeSpace();
      ghost var t := table;
      if key !in table {
        GrowsByOne(table, key, NewEntry(loc, encoding, sticky, curMedianUsage));
        table := table[key := NewEntry(loc, encoding, sticky, curMedianUsage)];
      }
      assert Added(t, key, table);
    }
  }

  /** `t'` is what an eviction leaves of `t`. */
  ghost predicate Evicted(t: Entries, t': Entries) {
    EvictsLeastUsed(DecayAll(t), t') && EvictedShare(|t|, |t| - |t'|)
  }

  /** `t'` is `t` with an entry for the key added unless there is one. */
  ghost predicate Added(t: Entries, key: HashKey, t': Entries) {
    && t'.Keys == t.Keys + {key}
    && forall k :: k in t ==> t'[k] == t[k]
  }

  predicate IsNew(e: PgssEntry, loc: Loc, encoding: int, usage: real) {
    e.loc == loc && e.encoding == encoding && e.planCalls == 0 && e.execCalls == 0 && e.rest == 0 && e.usage == usage
  }

  lemma DecaySize(t: Entries)
    ensures |DecayAll(t)| == |t|
  {
    assert DecayAll(t).Keys == t.Keys;
    assert |DecayAll(t).Keys| == |DecayAll(t)| && |t.Keys| == |t|;
  }

  /** The scan: the entries in `todo` have not been seen. */
  ghost predicate Scanning(orig: Entries, now: Entries, todo: set<HashKey>, entries: seq<HashKey>) {
    && now.Keys == orig.Keys && todo <= orig.Keys
    && (forall k :: k in todo ==> now[k] == orig[k])
    && (forall k :: k in orig && k !in todo ==> now[k] == Decayed(orig[k]))
    && Distinct(entries)
    && forall k :: k in entries <==> k in orig && k !in todo
  }

  lemma ScanNext(orig: Entries, now: Entries, todo: set<HashKey>, entries: seq<HashKey>, k: HashKey)
    requires Scanning(orig, now, todo, entries) && k in todo
    ensures Scanning(orig, now[k := Decayed(orig[k])], todo - {k}, entries + [k])
  {
  }

  lemma ScanDone(orig: Entries, now: Entries, entries: seq<HashKey>)
    requires Scanning(orig, now, {}, entries)
    ensures now == DecayAll(orig) && Enumerates(entries, now) && Enumerates(entries, orig)
  {
  }

  lemma GrowsByOne(t: Entries, k: HashKey, e: PgssEntry)
    ensures |t[k := e]| <= |t| + 1
  {
    assert t[k := e].Keys == t.Keys + {k};
    assert |t[k := e].Keys| == |t[k := e]| && |t.Keys| == |t|;
  }
}
