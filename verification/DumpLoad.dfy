/**
 Saving the statistics at shutdown and loading them at startup (edb_stat_statements.c: the loops of
 pgss_shmem_shutdown and pgss_shmem_startup).
 */
module DumpLoad {
  import opened Collections
  import opened Results
  import opened QueryTexts
  import opened Eviction
  import Gc = TextGc

  /** An entry as it is in memory, followed in the dump file by its text and NUL. */
  datatype Record = Record(key: HashKey, entry: PgssEntry, text: seq<Byte>)

  const PGSS_FILE_HEADER: nat := 0x20241125

  /** The last server encoding of PostgreSQL. */
  const PG_ENCODING_BE_LAST: int := 34

  /** The dump file; `num` is the count in its header and `stats` the global statistics at its end. */
  datatype DumpFile = DumpFile(header: nat, pgver: nat, num: nat, records: seq<Record>, stats: GlobalStats)

  // ---------------------------------------------------------------- the dump

  predicate Fetchable(e: PgssEntry, buf: seq<Byte>) {
    Fetch(e.loc, Some(buf)).Some?
  }

  ghost predicate RecordOf(r: Record, t: Entries, buf: seq<Byte>) {
    r.key in t && r.entry == t[r.key] && Fetchable(r.entry, buf) && r.text == Gc.Block(r.entry.loc, buf)
  }

  ghost predicate DistinctKeys(records: seq<Record>) {
    forall i, j :: 0 <= i < j < |records| ==> records[i].key != records[j].key
  }

  ghost predicate HasRecord(records: seq<Record>, k: HashKey) {
    exists i :: 0 <= i < |records| && records[i].key == k
  }

  /** One record for each entry that was visited and whose text can be fetched. */
  ghost predicate Dumping(t: Entries, buf: seq<Byte>, todo: set<HashKey>, records: seq<Record>) {
    && DistinctKeys(records)
    && (forall i :: 0 <= i < |records| ==> RecordOf(records[i], t, buf) && records[i].key !in todo)
    && forall k :: k in t && k !in todo && Fetchable(t[k], buf) ==> HasRecord(records, k)
  }

  lemma DumpNext(t: Entries, buf: seq<Byte>, todo: set<HashKey>, records: seq<Record>, r: Record)
    requires Dumping(t, buf, todo, records) && r.key in todo && RecordOf(r, t, buf)
    ensures Dumping(t, buf, todo - {r.key}, records + [r])
  {
    var records' := records + [r];
    assert records'[|records|] == r;
    forall k | k in t && k !in todo - {r.key} && Fetchable(t[k], buf) ensures HasRecord(records', k) {
      if k != r.key {
        var i :| 0 <= i < |records| && records[i].key == k;
        assert records'[i].key == k;
      }
    }
  }

  /** The result of a dump. */
  ghost predicate Dumped(t: Entries, buf: seq<Byte>, stats: GlobalStats, pgver: nat, d: DumpFile) {
    && d.header == 0x20241125 && d.pgver == pgver
    && d.num == |t| && d.stats == stats
    && Dumping(t, buf, {}, d.records)
  }

  /** Entries whose text cannot be fetched are left out, but counted in the header. */
  method Dump(table: Entries, file: Option<seq<Byte>>, stats: GlobalStats, pgver: nat) returns (d: Option<DumpFile>)
    ensures d.Some? <==> file.Some?
    ensures d.Some? ==> Dumped(table, file.value, stats, pgver, d.value)
  {
    var num := |table|;
    if file.None? {
      return None;
    }
    var (qbuffer, records) := (file.value, []);
    var todo := table.Keys;
    while todo != {}
      invariant todo <= table.Keys && Dumping(table, qbuffer, todo, records)
      decreases |todo|
    {
      var k :| k in todo;
      var qstr := Fetch(table[k].loc, Some(qbuffer));
      if qstr.Some? {
        DumpNext(table, qbuffer, todo, records, Record(k, table[k], qstr.value + [0]));
        records := records + [Record(k, table[k], qstr.value + [0])];
      }
      todo := todo - {k};
    }
    d := Some(DumpFile(PGSS_FILE_HEADER, pgver, num, records, stats));
  }

  // ---------------------------------------------------------------- the load

  /** What the loop that writes dump files guarantees of each record. */
  predicate WellFormed(r: Record) {
    r.entry.loc.queryLen >= 0 && r.text != [] && |r.text| == TextLen(r.entry.loc) + 1
  }

  ghost predicate AllWellFormed(records: seq<Record>) {
    forall i :: 0 <= i < |records| ==> WellFormed(records[i])
  }

  /** The length of the text file after the first `n` records: "sticky" ones are skipped. */
  ghost function Total(records: seq<Record>, n: nat): nat
    requires n <= |records|
  {
    if n == 0 then 0
    else Total(records, n - 1) + if IsSticky(records[n - 1].entry) then 0 else |records[n - 1].text|
  }

  /** `e` is the entry of the record, with its text at `off` in the new file. */
  ghost predicate Restored(r: Record, e: PgssEntry, file: seq<Byte>, off: nat)
    requires r.text != []
  {
    && e == r.entry.(loc := r.entry.loc.(offset := off))
    && Fetch(e.loc, Some(file)) == Some(r.text[..|r.text| - 1])
  }

  ghost predicate LoadedKey(records: seq<Record>, n: nat, k: HashKey)
    requires n <= |records|
  {
    exists i :: 0 <= i < n && records[i].key == k && !IsSticky(records[i].entry)
  }

  /** The first `n` records are in the table and in the text file, and nothing else is. */
  ghost predicate Loaded(records: seq<Record>, n: nat, t: Entries, file: seq<Byte>)
    requires n <= |records| && AllWellFormed(records)
  {
    && |file| == Total(records, n)
    && (forall k :: k in t <==> LoadedKey(records, n, k))
    && forall i :: 0 <= i < n ==> RestoredAt(records, i, t, file)
  }

  ghost predicate RestoredAt(records: seq<Record>, i: nat, t: Entries, file: seq<Byte>)
    requires i < |records| && AllWellFormed(records)
  {
    var r := records[i];
    !IsSticky(r.entry) ==> r.key in t && Restored(r, t[r.key], file, Total(records, i))
  }

  lemma RestoredMore(r: Record, e: PgssEntry, file: seq<Byte>, off: nat, more: seq<Byte>)
    requires r.text != [] && Restored(r, e, file, off)
    ensures Restored(r, e, file + more, off)
  {
    Gc.FetchMore(e.loc, file, more);
  }

  lemma RestoredNow(r: Record, file: seq<Byte>)
    requires WellFormed(r)
    ensures
      var (e, text) := (r.entry.(loc := r.entry.loc.(offset := |file|)), r.text[..|r.text| - 1] + [0]);
      Restored(r, e, file + text, |file|)
  {
    var n := |r.text| - 1;
    var file' := file + (r.text[..n] + [0]);
    assert file'[|file| + n] == 0;
    assert file'[|file|..|file| + n] == r.text[..n];
  }

  lemma LoadNext(records: seq<Record>, n: nat, t: Entries, file: seq<Byte>)
    requires n < |records| && AllWellFormed(records) && DistinctKeys(records)
    requires Loaded(records, n, t, file) && !IsSticky(records[n].entry)
    ensures
      var (r, text) := (records[n], records[n].text[..|records[n].text| - 1] + [0]);
      && r.key !in t
      && Loaded(records, n + 1, t[r.key := r.entry.(loc := r.entry.loc.(offset := |file|))], file + text)
  {
    var r := records[n];
    var (e, text) := (r.entry.(loc := r.entry.loc.(offset := |file|)), r.text[..|r.text| - 1] + [0]);
    var t' := t[r.key := e];
    RestoredNow(r, file);
    forall i | 0 <= i < n ensures RestoredAt(records, i, t', file + text) {
      assert RestoredAt(records, i, t, file) && records[i].key != r.key;
      if !IsSticky(records[i].entry) {
        RestoredMore(records[i], t[records[i].key], file, Total(records, i), text);
      }
    }
    forall k ensures k in t' <==> LoadedKey(records, n + 1, k) {
      LoadedKeyNext(records, n, k);
    }
  }

  lemma LoadSkip(records: seq<Record>, n: nat, t: Entries, file: seq<Byte>)
    requires n < |records| && AllWellFormed(records)
    requires Loaded(records, n, t, file) && IsSticky(records[n].entry)
    ensures Loaded(records, n + 1, t, file)
  {
    forall k ensures k in t <==> LoadedKey(records, n + 1, k) {
      LoadedKeyNext(records, n, k);
    }
  }

  lemma LoadedKeyNext(records: seq<Record>, n: nat, k: HashKey)
    requires n < |records|
    ensures LoadedKey(records, n + 1, k) <==>
      LoadedKey(records, n, k) || (records[n].key == k && !IsSticky(records[n].entry))
  {
  }

  predicate ValidEncoding(r: Record) {
    0 <= r.entry.encoding <= PG_ENCODING_BE_LAST
  }

  datatype LoadResult = Success | ReadError | DataError

  /** Another header or version, or a record with a bogus encoding among those that are read. */
  ghost predicate BadData(d: DumpFile, pgver: nat) {
    || d.header != 0x20241125 || d.pgver != pgver
    || Bogus(d.records, d.num)
  }

  /** One of the first `n` records, as far as there are so many, has a number that is no server encoding. */
  ghost predicate Bogus(records: seq<Record>, n: nat) {
    exists i :: 0 <= i < n && i < |records| && !(0 <= records[i].entry.encoding <= 34)
  }

  lemma BogusNext(records: seq<Record>, n: nat, m: nat)
    requires n <= m
    ensures Bogus(records, n) ==> Bogus(records, m)
    ensures n >= |records| ==> (Bogus(records, m) <==> Bogus(records, n))
    ensures n < |records| ==> (Bogus(records, n + 1) <==> Bogus(records, n) || !ValidEncoding(records[n]))
  {
    if n < |records| && !ValidEncoding(records[n]) {
      assert !(0 <= records[n].entry.encoding <= 34);
    }
  }

  class SharedStats {
    const hash: Statements
    const pgver: nat
    var file: seq<Byte>
    var extent: nat

    /** The state in which the load starts: an empty table and an empty text file. */
    constructor (pgssMax: nat, pgver: nat, now: int)
      requires 0 < pgssMax
      ensures fresh(hash) && hash.pgssMax == pgssMax && this.pgver == pgver
      ensures hash.table == map[] && hash.stats == GlobalStats(0, now) && file == [] && extent == 0
    {
      hash := new Statements(pgssMax, now);
      this.pgver := pgver;
      file, extent := [], 0;
    }

    /**
     Loads one record that is not "sticky": its statistics replace whatever the table has for the key, whose text
     stays where it was unless the entry is new.  Others change only if something is evicted.
     */
    method LoadRecord(r: Record)
      requires 0 < hash.pgssMax && WellFormed(r) && extent == |file|
      modifies this`file, this`extent, hash
      ensures |hash.table| <= hash.pgssMax && extent == |file|
      ensures file == old(file) + (r.text[..|r.text| - 1] + [0])
      ensures r.key in hash.table && hash.table[r.key] == r.entry.(loc := hash.table[r.key].loc)
      ensures
        || hash.table[r.key].loc == r.entry.loc.(offset := |old(file)|)
        || (r.key in old(hash.table) && hash.table[r.key].loc == old(hash.table)[r.key].loc)
      ensures forall k :: k in hash.table && k != r.key ==>
        k in old(hash.table) && SameStats(hash.table[k], old(hash.table)[k])
      ensures |old(hash.table)| < hash.pgssMax && r.key !in old(hash.table) ==>
        && hash.table == old(hash.table)[r.key := r.entry.(loc := r.entry.loc.(offset := |old(file)|))]
        && hash.stats == old(hash.stats)
    {
      var (len, offset) := (TextLen(r.entry.loc), extent);
      file := file + (r.text[..len] + [0]);
      extent := extent + len + 1;
      hash.EntryAlloc(r.key, r.entry.loc.(offset := offset), r.entry.encoding, false);
      var e := hash.table[r.key];
      SameSize(hash.table, r.key, r.entry.(loc := e.loc));
      hash.table := hash.table[r.key := r.entry.(loc := e.loc)];
    }

    /** The dump fits into the table, so that loading it evicts nothing. */
    ghost predicate Fits(records: seq<Record>) {
      DistinctKeys(records) && |records| <= hash.pgssMax
    }

    /** The body of the loop over the records, after the encoding was checked. */
    method LoadNth(records: seq<Record>, i: nat)
      requires 0 < hash.pgssMax && i < |records| && AllWellFormed(records)
      requires |hash.table| <= hash.pgssMax && extent == |file| && LoadedSoFar(records, i, hash.stats)
      modifies this`file, this`extent, hash
      ensures |hash.table| <= hash.pgssMax && extent == |file| && LoadedSoFar(records, i + 1, old(hash.stats))
    {
      var temp := records[i];
      if IsSticky(temp.entry) {
        if Fits(records) {
          LoadSkip(records, i, hash.table, file);
        }
        return;
      }
      if Fits(records) {
        LoadNext(records, i, hash.table, file);
        GrowsByOne(hash.table, temp.key, temp.entry.(loc := temp.entry.loc.(offset := |file|)));
      }
      LoadRecord(temp);
    }

    /** Without eviction, the first `n` records are loaded and the global statistics are as they were. */
    ghost predicate LoadedSoFar(records: seq<Record>, n: nat, stats: GlobalStats)
      requires n <= |records| && AllWellFormed(records)
      reads this, hash
    {
      Fits(records) ==> |hash.table| <= n && Loaded(records, n, hash.table, file) && hash.stats == stats
    }

    /** The loop over the records. */
    method LoadRecords(records: seq<Record>, num: nat) returns (r: LoadResult)
      requires 0 < hash.pgssMax && AllWellFormed(records)
      requires hash.table == map[] && file == [] && extent == 0
      modifies this`file, this`extent, hash
      ensures |hash.table| <= hash.pgssMax && extent == |file|
      ensures r.DataError? <==> Bogus(records, num)
      ensures !r.DataError? ==> (r.Success? <==> num <= |records|)
      ensures Fits(records) ==> hash.stats == old(hash.stats)
      ensures !r.DataError? && Fits(records) ==>
        Loaded(records, if r.Success? then num else |records|, hash.table, file)
    {
      for i := 0 to num
        invariant |hash.table| <= hash.pgssMax && extent == |file|
        invariant i <= |records| && !Bogus(records, i)
        invariant LoadedSoFar(records, i, hash.stats) && (Fits(records) ==> hash.stats == old(hash.stats))
      {
        BogusNext(records, i, num);
        if i >= |records| {
          return ReadError;
        }
        BogusNext(records, i + 1, num);
        if !ValidEncoding(records[i]) {
          return DataError;
        }
        LoadNth(records, i);
      }
      r := Success;
    }

    /** A read error means that the file has fewer records than its header says. */
    method Load(d: DumpFile) returns (r: LoadResult)
      requires 0 < hash.pgssMax && AllWellFormed(d.records)
      requires hash.table == map[] && file == [] && extent == 0
      modifies this, hash
      ensures |hash.table| <= hash.pgssMax && extent == |file|
      ensures r.DataError? <==> BadData(d, pgver)
      ensures r.ReadError? <==> !BadData(d, pgver) && |d.records| < d.num
      ensures r.Success? ==> hash.stats == d.stats
      ensures !r.Success? && Fits(d.records) ==> hash.stats == old(hash.stats)
      ensures !r.DataError? && Fits(d.records) ==>
        Loaded(d.records, if r.Success? then d.num else |d.records|, hash.table, file)
    {
      if d.header != PGSS_FILE_HEADER || d.pgver != pgver {
        return DataError;
      }
      r := LoadRecords(d.records, d.num);
      if r.Success? {
        hash.stats := d.stats;
      }
    }
  }

  lemma SameSize(t: Entries, k: HashKey, e: PgssEntry)
    requires k in t
    ensures |t[k := e]| == |t|
  {
    assert t[k := e].Keys == t.Keys;
    assert |t[k := e].Keys| == |t[k := e]| && |t.Keys| == |t|;
  }

  // ---------------------------------------------------------------- the round trip

  /** Every entry has lengths that can be of a text, or is marked as having lost it. */
  ghost predicate ProperLocs(t: Entries) {
    forall k :: k in t ==>
      t[k].loc == DROPPED || (t[k].loc.queryLen >= 0 && t[k].loc.extrasLen >= 0 && t[k].loc.tagLen >= 0)
  }

  ghost predicate AllFetchable(t: Entries, buf: seq<Byte>) {
    forall k :: k in t ==> Fetchable(t[k], buf)
  }

  ghost function KeysOf(records: seq<Record>): (r: seq<HashKey>)
    ensures |r| == |records| && forall i :: 0 <= i < |r| ==> r[i] == records[i].key
  {
    if records == [] then [] else [records[0].key] + KeysOf(records[1..])
  }

  ghost function FetchablePart(t: Entries, buf: seq<Byte>): Entries {
    map k | k in t && Fetchable(t[k], buf) :: t[k]
  }

  lemma RecordsEnumerate(t: Entries, buf: seq<Byte>, records: seq<Record>)
    requires Dumping(t, buf, {}, records)
    ensures Enumerates(KeysOf(records), FetchablePart(t, buf))
  {
    var (keys, part) := (KeysOf(records), FetchablePart(t, buf));
    forall k ensures k in keys <==> k in part {
      if k in keys {
        var i :| 0 <= i < |keys| && keys[i] == k;
        assert RecordOf(records[i], t, buf);
      }
      if k in part {
        assert HasRecord(records, k);
        var i :| 0 <= i < |records| && records[i].key == k;
        assert keys[i] == k;
      }
    }
  }

  /** The header counts as many entries as there are records exactly when every text can be fetched. */
  lemma HeaderCount(t: Entries, buf: seq<Byte>, stats: GlobalStats, pgver: nat, d: DumpFile)
    requires Dumped(t, buf, stats, pgver, d)
    ensures |d.records| <= d.num
    ensures d.num == |d.records| <==> AllFetchable(t, buf)
  {
    RecordsEnumerate(t, buf, d.records);
    EnumerationSize(KeysOf(d.records), FetchablePart(t, buf));
    PartSize(t, buf);
  }

  /** One entry without a text is enough for the header to count too many. */
  lemma DroppedTextMiscounts(t: Entries, buf: seq<Byte>, stats: GlobalStats, pgver: nat, d: DumpFile, k: HashKey)
    requires Dumped(t, buf, stats, pgver, d) && k in t && t[k].loc == DROPPED
    ensures |d.records| < d.num
  {
    HeaderCount(t, buf, stats, pgver, d);
    assert !Fetchable(t[k], buf);
  }

  lemma PartSize(t: Entries, buf: seq<Byte>)
    ensures |FetchablePart(t, buf)| <= |t|
    ensures |FetchablePart(t, buf)| == |t| <==> AllFetchable(t, buf)
  {
    var part := FetchablePart(t, buf);
    assert |part.Keys| == |part| && |t.Keys| == |t|;
    SubsetSize(part.Keys, t.Keys);
    if k :| k in t && !Fetchable(t[k], buf) {
      SubsetSize(part.Keys, t.Keys - {k});
    } else {
      assert part == t;
    }
  }

  lemma RecordsWellFormed(t: Entries, buf: seq<Byte>, records: seq<Record>)
    requires Dumping(t, buf, {}, records) && ProperLocs(t)
    ensures AllWellFormed(records)
  {
    forall i | 0 <= i < |records| ensures WellFormed(records[i]) {
      var r := records[i];
      assert RecordOf(r, t, buf);
      Gc.BlockLength(r.entry.loc, buf);
    }
  }

  /** An entry that survives a restart: same statistics, same lengths and same text, wherever the text is now. */
  ghost predicate Survived(e: PgssEntry, buf: seq<Byte>, e': PgssEntry, file: seq<Byte>) {
    && e' == e.(loc := e.loc.(offset := e'.loc.offset))
    && Fetch(e'.loc, Some(file)) == Fetch(e.loc, Some(buf))
  }

  /** The entries with at least one call whose texts can be fetched survive, and no others. */
  ghost predicate SameAfterRestart(t: Entries, buf: seq<Byte>, t': Entries, file: seq<Byte>) {
    && (forall k :: k in t' <==> k in t && Fetchable(t[k], buf) && (t[k].planCalls > 0 || t[k].execCalls > 0))
    && (forall k :: k in t' ==> Survived(t[k], buf, t'[k], file))
  }

  lemma SurvivesDumpAndLoad(t: Entries, buf: seq<Byte>, records: seq<Record>, t': Entries, file: seq<Byte>, i: nat)
    requires Dumping(t, buf, {}, records) && AllWellFormed(records) && Loaded(records, |records|, t', file)
    requires i < |records| && !IsSticky(records[i].entry)
    ensures var k := records[i].key; k in t && k in t' && Survived(t[k], buf, t'[k], file)
  {
    var r := records[i];
    assert RecordOf(r, t, buf) && RestoredAt(records, i, t', file);
    var b := Fetch(r.entry.loc, Some(buf)).value;
    assert r.text[..|r.text| - 1] == b;
  }

  lemma DumpThenLoad(t: Entries, buf: seq<Byte>, records: seq<Record>, t': Entries, file: seq<Byte>)
    requires Dumping(t, buf, {}, records) && AllWellFormed(records) && Loaded(records, |records|, t', file)
    ensures SameAfterRestart(t, buf, t', file)
  {
    forall k ensures k in t' <==> k in t && Fetchable(t[k], buf) && !IsSticky(t[k]) {
      if k in t' {
        assert LoadedKey(records, |records|, k);
        var i :| 0 <= i < |records| && records[i].key == k && !IsSticky(records[i].entry);
        assert RecordOf(records[i], t, buf);
      } else if k in t && Fetchable(t[k], buf) {
        assert HasRecord(records, k);
        var i :| 0 <= i < |records| && records[i].key == k;
        assert RecordOf(records[i], t, buf);
      }
    }
    forall k | k in t' ensures Survived(t[k], buf, t'[k], file) {
      assert LoadedKey(records, |records|, k);
      var i :| 0 <= i < |records| && records[i].key == k && !IsSticky(records[i].entry);
      SurvivesDumpAndLoad(t, buf, records, t', file, i);
    }
  }

  /** The keys that are loaded from the first `n` records. */
  ghost function LoadedKeys(records: seq<Record>, n: nat): seq<HashKey>
    requires n <= |records|
  {
    if n == 0 then []
    else if IsSticky(records[n - 1].entry) then LoadedKeys(records, n - 1)
    else LoadedKeys(records, n - 1) + [records[n - 1].key]
  }

  lemma {:induction false} LoadedKeysOk(records: seq<Record>, n: nat)
    requires n <= |records| && DistinctKeys(records)
    ensures Distinct(LoadedKeys(records, n)) && forall k :: k in LoadedKeys(records, n) <==> LoadedKey(records, n, k)
  {
    if n == 0 {
    } else {
      LoadedKeysOk(records, n - 1);
      if !IsSticky(records[n - 1].entry) {
        AppendDistinct(LoadedKeys(records, n - 1), records[n - 1].key);
      }
      forall k ensures k in LoadedKeys(records, n) <==> LoadedKey(records, n, k) {
        LoadedKeyNext(records, n - 1, k);
      }
    }
  }

  /** The lengths of the texts of the given entries, with their NULs. */
  ghost function TextSum(order: seq<HashKey>, t: Entries): int
    requires forall k :: k in order ==> k in t
  {
    if order == [] then 0 else TextSum(order[..|order| - 1], t) + TextLen(t[order[|order| - 1]].loc) + 1
  }

  lemma TextSumNext(order: seq<HashKey>, k: HashKey, t: Entries)
    requires k in t && forall k' :: k' in order ==> k' in t
    ensures TextSum(order + [k], t) == TextSum(order, t) + TextLen(t[k].loc) + 1
  {
    assert (order + [k])[..|order|] == order;
  }

  lemma {:induction false} TotalIsTextSum(records: seq<Record>, n: nat, t: Entries)
    requires n <= |records| && AllWellFormed(records)
    requires forall i :: 0 <= i < n ==> HasLengths(records[i], t)
    ensures forall k :: k in LoadedKeys(records, n) ==> k in t
    ensures TextSum(LoadedKeys(records, n), t) == Total(records, n)
  {
    if n == 0 {
    } else {
      TotalIsTextSum(records, n - 1, t);
      assert WellFormed(records[n - 1]) && HasLengths(records[n - 1], t);
      if !IsSticky(records[n - 1].entry) {
        TextSumNext(LoadedKeys(records, n - 1), records[n - 1].key, t);
      }
    }
  }

  /** The entry loaded from a record has a text as long as the one in the record. */
  ghost predicate HasLengths(r: Record, t: Entries) {
    !IsSticky(r.entry) ==> r.key in t && TextLen(t[r.key].loc) == TextLen(r.entry.loc)
  }

  /** The extent is the total length of the texts of a table. */
  ghost predicate IsTextTotal(extent: nat, t: Entries) {
    exists order :: Enumerates(order, t) && extent == TextSum(order, t)
  }

  lemma ExtentIsTotal(records: seq<Record>, t: Entries, file: seq<Byte>)
    requires AllWellFormed(records) && DistinctKeys(records) && Loaded(records, |records|, t, file)
    ensures IsTextTotal(|file|, t)
  {
    LoadedKeysOk(records, |records|);
    forall i | 0 <= i < |records| ensures HasLengths(records[i], t) {
      assert RestoredAt(records, i, t, file);
    }
    TotalIsTextSum(records, |records|, t);
    assert Enumerates(LoadedKeys(records, |records|), t);
  }

  /** Every entry was made in a server encoding. */
  ghost predicate ProperEncodings(t: Entries) {
    forall k :: k in t ==> 0 <= t[k].encoding <= PG_ENCODING_BE_LAST
  }

  lemma NoBadData(t: Entries, buf: seq<Byte>, stats: GlobalStats, pgver: nat, d: DumpFile)
    requires Dumped(t, buf, stats, pgver, d) && ProperEncodings(t)
    ensures !BadData(d, pgver)
  {
    forall i | 0 <= i < |d.records| ensures ValidEncoding(d.records[i]) {
      assert RecordOf(d.records[i], t, buf);
    }
  }

  /**
   A shutdown and a startup of the same version with the same pgss_max.  Every entry that has a call and a text
   survives, and the extent is the total of their texts; the global statistics survive exactly when every entry had
   its text, because the header counts the entries that are left out.
   */
  method Restart(table: Entries, buf: seq<Byte>, stats: GlobalStats, pgssMax: nat, pgver: nat, now: int)
    returns (s: SharedStats, ok: bool)
    requires 0 < pgssMax && |table| <= pgssMax && ProperLocs(table) && ProperEncodings(table)
    ensures SameAfterRestart(table, buf, s.hash.table, s.file)
    ensures s.extent == |s.file| && IsTextTotal(s.extent, s.hash.table)
    ensures ok <==> AllFetchable(table, buf)
    ensures s.hash.stats == if ok then stats else GlobalStats(0, now)
  {
    var d := Dump(table, Some(buf), stats, pgver);
    HeaderCount(table, buf, stats, pgver, d.value);
    RecordsWellFormed(table, buf, d.value.records);
    NoBadData(table, buf, stats, pgver, d.value);
    s := new SharedStats(pgssMax, pgver, now);
    var r := s.Load(d.value);
    DumpThenLoad(table, buf, d.value.records, s.hash.table, s.file);
    ExtentIsTotal(d.value.records, s.hash.table, s.file);
    ok := r.Success?;
  }
}
