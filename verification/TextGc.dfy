/**
 Garbage collection of the query-text file as one sequential operation (edb_stat_statements.c: need_gc_qtexts,
 gc_qtexts).  The caller holds the exclusive lock, so nothing else changes the table or the file meanwhile.
 */
module TextGc {
  import opened Collections
  import opened Results
  import opened QueryTexts

  /** The location fields of all hashtable entries. */
  type Locs = map<HashKey, Loc>

  // ---------------------------------------------------------------- packed copies

  /** One entry whose text was copied: where it was and where it is now. */
  datatype Move = Move(key: HashKey, from: Loc, to: Loc)

  /** The copies made so far, in order. */
  datatype Log = Empty | More(init: Log, move: Move)

  ghost predicate In(v: Move, log: Log) {
    log.More? && (v == log.move || In(v, log.init))
  }

  /** The copied bytes, with the terminating NUL. */
  function Block(l: Loc, buf: seq<Byte>): seq<Byte> {
    var b := Fetch(l, Some(buf));
    if b.Some? then b.value + [0] else []
  }

  ghost function Blocks(log: Log, buf: seq<Byte>): seq<Byte> {
    if log.Empty? then [] else Blocks(log.init, buf) + Block(log.move.from, buf)
  }

  /** The text of a copied entry was readable, and its copy starts at `off`. */
  ghost predicate MovedTo(v: Move, buf: seq<Byte>, off: nat) {
    Fetch(v.from, Some(buf)).Some? && v.to == v.from.(offset := off)
  }

  /** Each copy starts where the one before it ends. */
  ghost predicate Packed(log: Log, buf: seq<Byte>) {
    log.More? ==> Packed(log.init, buf) && MovedTo(log.move, buf, |Blocks(log.init, buf)|)
  }

  lemma FetchMore(l: Loc, a: seq<Byte>, b: seq<Byte>)
    requires Fetch(l, Some(a)).Some?
    ensures Fetch(l, Some(a + b)) == Fetch(l, Some(a))
  {
    assert (a + b)[l.offset..l.offset + TextLen(l)] == a[l.offset..l.offset + TextLen(l)];
  }

  lemma FetchAppended(v: Move, buf: seq<Byte>, a: seq<Byte>)
    requires MovedTo(v, buf, |a|)
    ensures Fetch(v.to, Some(a + Block(v.from, buf))) == Fetch(v.from, Some(buf))
  {
    var b := Fetch(v.from, Some(buf)).value;
    assert (a + Block(v.from, buf))[|a|..|a| + TextLen(v.from)] == b;
  }

  lemma BlockLength(l: Loc, buf: seq<Byte>)
    requires Fetch(l, Some(buf)).Some?
    ensures |Block(l, buf)| == TextLen(l) + 1 >= 1
  {
  }

  /** A copied text is read from the new file as it was from the old one. */
  lemma {:induction false} MovedTextIsSame(log: Log, buf: seq<Byte>, v: Move)
    requires Packed(log, buf) && In(v, log)
    ensures MovedTo(v, buf, v.to.offset)
    ensures Fetch(v.to, Some(Blocks(log, buf))) == Fetch(v.from, Some(buf))
  {
    if In(v, log.init) {
      MovedTextIsSame(log.init, buf, v);
      FetchMore(v.to, Blocks(log.init, buf), Block(log.move.from, buf));
    } else {
      FetchAppended(v, buf, Blocks(log.init, buf));
    }
  }

  /** Position `x` of the file belongs to the text at `l`, or to its NUL. */
  predicate Covers(l: Loc, x: int) {
    l.offset <= x <= l.offset + TextLen(l)
  }

  lemma {:induction false} MoveEnds(log: Log, buf: seq<Byte>, v: Move)
    requires Packed(log, buf) && In(v, log)
    ensures v.to.offset + TextLen(v.to) < |Blocks(log, buf)|
  {
    BlockLength(log.move.from, buf);
    if In(v, log.init) {
      MoveEnds(log.init, buf, v);
    }
  }

  /** The copies tile the new file. */
  lemma {:induction false} MovesTile(log: Log, buf: seq<Byte>, x: nat) returns (v: Move)
    requires Packed(log, buf) && x < |Blocks(log, buf)|
    ensures In(v, log) && Covers(v.to, x)
    ensures forall v' :: In(v', log) && Covers(v'.to, x) ==> v' == v
  {
    BlockLength(log.move.from, buf);
    if x < |Blocks(log.init, buf)| {
      v := MovesTile(log.init, buf, x);
    } else {
      v := log.move;
      forall v' | In(v', log.init) ensures !Covers(v'.to, x) {
        MoveEnds(log.init, buf, v');
      }
    }
  }

  // ---------------------------------------------------------------- the old file was at least as long

  ghost function Range(lo: int, hi: int): (r: set<int>)
    requires lo <= hi
    ensures |r| == hi - lo && forall x :: x in r <==> lo <= x < hi
    decreases hi - lo
  {
    if lo == hi then {} else Range(lo, hi - 1) + {hi - 1}
  }

  /** The positions of the old file that were copied. */
  ghost function Used(log: Log, buf: seq<Byte>): (r: set<int>)
    requires Packed(log, buf)
    ensures forall x :: x in r ==> 0 <= x < |buf|
  {
    if log.Empty? then {} else
    var l := log.move.from;
    Used(log.init, buf) + Range(l.offset, l.offset + TextLen(l) + 1)
  }

  ghost predicate Apart(a: Loc, b: Loc) {
    a.offset + TextLen(a) < b.offset || b.offset + TextLen(b) < a.offset
  }

  /** No two copied texts shared a byte. */
  ghost predicate MovesApart(log: Log) {
    log.More? ==> MovesApart(log.init) && forall v :: In(v, log.init) ==> Apart(v.from, log.move.from)
  }

  lemma {:induction false} NotUsed(log: Log, buf: seq<Byte>, x: int)
    requires Packed(log, buf) && forall v :: In(v, log) ==> !Covers(v.from, x)
    ensures x !in Used(log, buf)
  {
    if log.Empty? {
    } else {
      assert In(log.move, log);
      NotUsed(log.init, buf, x);
    }
  }

  lemma {:induction false} UsedBytes(log: Log, buf: seq<Byte>)
    requires Packed(log, buf) && MovesApart(log)
    ensures |Used(log, buf)| == |Blocks(log, buf)|
  {
    if log.Empty? {
    } else {
      var l := log.move.from;
      var range := Range(l.offset, l.offset + TextLen(l) + 1);
      UsedBytes(log.init, buf);
      BlockLength(l, buf);
      forall x | x in range ensures x !in Used(log.init, buf) {
        NotUsed(log.init, buf, x);
      }
      assert Used(log.init, buf) !! range;
    }
  }

  // ---------------------------------------------------------------- what a collection does to the table

  /** An entry was visited: its text was copied, or it was unreadable and is dropped. */
  ghost predicate Visited(k: HashKey, from: Loc, to: Loc, buf: seq<Byte>, log: Log) {
    if Fetch(from, Some(buf)).Some? then In(Move(k, from, to), log) else to == DROPPED
  }

  ghost predicate Unrepeated(log: Log) {
    log.More? ==> Unrepeated(log.init) && forall v :: In(v, log.init) ==> v.key != log.move.key
  }

  /** The loop over the table: the entries in `todo` are still to be visited. */
  ghost predicate Copying(orig: Locs, now: Locs, buf: seq<Byte>, todo: set<HashKey>, log: Log) {
    && now.Keys == orig.Keys && todo <= orig.Keys
    && (forall k :: k in todo ==> now[k] == orig[k])
    && (forall k :: k in orig && k !in todo ==> Visited(k, orig[k], now[k], buf, log))
    && (forall v :: In(v, log) ==> v.key in orig && v.key !in todo && v.from == orig[v.key])
    && Unrepeated(log)
    && Packed(log, buf)
  }

  lemma CopyNext(orig: Locs, now: Locs, buf: seq<Byte>, todo: set<HashKey>, log: Log, k: HashKey, to: Loc)
    requires Copying(orig, now, buf, todo, log) && k in todo && Fetch(orig[k], Some(buf)).Some?
    requires to == orig[k].(offset := |Blocks(log, buf)|)
    ensures Copying(orig, now[k := to], buf, todo - {k}, More(log, Move(k, orig[k], to)))
  {
    var (v, log') := (Move(k, orig[k], to), More(log, Move(k, orig[k], to)));
    forall k' | k' in orig && k' !in todo - {k} ensures Visited(k', orig[k'], now[k := to][k'], buf, log') {
      assert k' != k ==> Visited(k', orig[k'], now[k'], buf, log);
    }
  }

  lemma DropNext(orig: Locs, now: Locs, buf: seq<Byte>, todo: set<HashKey>, log: Log, k: HashKey)
    requires Copying(orig, now, buf, todo, log) && k in todo && Fetch(orig[k], Some(buf)).None?
    ensures Copying(orig, now[k := DROPPED], buf, todo - {k}, log)
  {
  }

  /** The result of a collection: `out` is the new file. */
  ghost predicate Compacted(orig: Locs, now: Locs, buf: seq<Byte>, out: seq<Byte>) {
    exists log: Log :: Copying(orig, now, buf, {}, log) && out == Blocks(log, buf)
  }

  /**
   After a collection every entry reads the same bytes as before, split into tag, extras and query as before; an
   entry that could not be read is marked as dropped.
   */
  lemma CompactedKeepsTexts(orig: Locs, now: Locs, buf: seq<Byte>, out: seq<Byte>, k: HashKey)
    requires Compacted(orig, now, buf, out) && k in orig
    ensures k in now && Fetch(now[k], Some(out)) == Fetch(orig[k], Some(buf))
    ensures Fetch(orig[k], Some(buf)).Some? ==> now[k] == orig[k].(offset := now[k].offset)
    ensures Fetch(orig[k], Some(buf)).None? ==> now[k] == Loc(0, -1, 0, 0)
  {
    var log: Log :| Copying(orig, now, buf, {}, log) && out == Blocks(log, buf);
    assert Visited(k, orig[k], now[k], buf, log);
    if Fetch(orig[k], Some(buf)).Some? {
      MovedTextIsSame(log, buf, Move(k, orig[k], now[k]));
    }
  }

  /** Every byte of the new file belongs to exactly one entry with a text. */
  lemma CompactedIsContiguous(orig: Locs, now: Locs, buf: seq<Byte>, out: seq<Byte>, x: nat) returns (k: HashKey)
    requires Compacted(orig, now, buf, out) && x < |out|
    ensures k in now && TextLen(now[k]) >= 0 && Covers(now[k], x)
    ensures forall k' :: k' in now && TextLen(now[k']) >= 0 && Covers(now[k'], x) ==> k' == k
  {
    var log: Log :| Copying(orig, now, buf, {}, log) && out == Blocks(log, buf);
    var v := MovesTile(log, buf, x);
    k := v.key;
    MovedTextIsSame(log, buf, v);
    assert Visited(k, orig[k], now[k], buf, log);
    SameMove(log, v, Move(k, orig[k], now[k]));
    forall k' | k' in now && TextLen(now[k']) >= 0 && Covers(now[k'], x) ensures k' == k {
      assert Visited(k', orig[k'], now[k'], buf, log);
    }
  }

  lemma {:induction false} SameMove(log: Log, v: Move, v': Move)
    requires Unrepeated(log) && In(v, log) && In(v', log) && v.key == v'.key
    ensures v == v'
  {
    if In(v, log.init) && In(v', log.init) {
      SameMove(log.init, v, v');
    }
  }

  /** The readable texts of a table do not share a byte. */
  ghost predicate TextsApart(orig: Locs, buf: seq<Byte>) {
    forall k, k' :: k in orig && k' in orig && k != k' ==>
      Fetch(orig[k], Some(buf)).Some? && Fetch(orig[k'], Some(buf)).Some? ==> Apart(orig[k], orig[k'])
  }

  lemma {:induction false} LogApart(orig: Locs, buf: seq<Byte>, log: Log)
    requires forall v :: In(v, log) ==> v.key in orig && v.from == orig[v.key]
    requires Unrepeated(log) && Packed(log, buf) && TextsApart(orig, buf)
    ensures MovesApart(log)
  {
    if log.Empty? {
    } else {
      LogApart(orig, buf, log.init);
      assert In(log.move, log);
      forall v | In(v, log.init) ensures Apart(v.from, log.move.from) {
        MovedTextIsSame(log.init, buf, v);
      }
    }
  }

  /** When no two texts share a byte, as in every reachable store, the file does not grow. */
  lemma CompactedDoesNotGrow(orig: Locs, now: Locs, buf: seq<Byte>, out: seq<Byte>)
    requires Compacted(orig, now, buf, out) && TextsApart(orig, buf)
    ensures |out| <= |buf|
  {
    var log: Log :| Copying(orig, now, buf, {}, log) && out == Blocks(log, buf);
    LogApart(orig, buf, log);
    UsedBytes(log, buf);
    SubsetSize(Used(log, buf), Range(0, |buf|));
  }

  // ---------------------------------------------------------------- the anti-thrash arithmetic

  /** need_gc_qtexts: the file is large, and more than about half of it is garbage. */
  predicate NeedGc(extent: nat, meanQueryLen: nat, pgssMax: nat) {
    if extent < 512 * pgssMax then false
    else if extent < meanQueryLen * pgssMax * 2 then false
    else true
  }

  /** The file is small, or at least about half of it is in use. */
  ghost predicate Compact(extent: nat, meanQueryLen: nat, pgssMax: nat) {
    extent < 512 * pgssMax || extent < 2 * (meanQueryLen * pgssMax)
  }

  /** The total divided by the count, rounded down. */
  ghost predicate IsMean(mean: nat, total: nat, count: nat) {
    if count == 0 then mean == 1024 else mean * count <= total < (mean + 1) * count
  }

  /** With the mean recomputed over at most pgss_max texts, no collection is due, however long the texts are. */
  lemma NoThrashing(extent: nat, nentries: nat, pgssMax: nat)
    requires 0 < pgssMax && nentries <= pgssMax && (nentries == 0 ==> extent == 0)
    ensures !NeedGc(extent, MeanLength(extent, nentries), pgssMax)
  {
    if nentries > 0 && extent >= 512 * pgssMax {
      var mean := extent / nentries;
      assert extent == mean * nentries + extent % nentries;
      LongTexts(extent, nentries, pgssMax, mean);
    }
  }

  lemma LongTexts(extent: nat, nentries: nat, pgssMax: nat, mean: nat)
    requires 0 < nentries <= pgssMax && extent >= 512 * pgssMax
    requires mean * nentries <= extent < (mean + 1) * nentries
    ensures extent < mean * pgssMax * 2
  {
    MulCancels(512, mean + 1, nentries);
    MulMonotone(mean + 1, 2 * mean, nentries);
    MulMonotone(nentries, pgssMax, 2 * mean);
  }

  lemma MulMonotone(a: nat, b: nat, c: nat)
    requires a <= b
    ensures a * c <= b * c
  {
  }

  lemma MulCancels(a: nat, b: nat, c: nat)
    requires a * c < b * c
    ensures a < b
  {
    if b <= a {
      MulMonotone(b, a, c);
    }
  }

  // ---------------------------------------------------------------- gc_qtexts

  /** Which file operations fail; `failedWrite` is the number of fwrite calls before the failing one. */
  datatype Failures =
    Failures(load: bool, open: bool, failedWrite: Option<nat>, close: bool, unlink: bool, recreate: bool)

  datatype Outcome = NotNeeded | Collected | Failed

  /** The entries that were visited and whose texts are in the image. */
  ghost function Readable(orig: Locs, buf: seq<Byte>, todo: set<HashKey>): set<HashKey> {
    set k | k in orig && k !in todo && Fetch(orig[k], Some(buf)).Some?
  }

  /** Their number. */
  ghost function Readables(orig: Locs, buf: seq<Byte>, todo: set<HashKey>): nat {
    |Readable(orig, buf, todo)|
  }

  lemma ReadableNext(orig: Locs, buf: seq<Byte>, todo: set<HashKey>, k: HashKey)
    requires k in todo && k in orig
    ensures
      var n := Readables(orig, buf, todo);
      Readables(orig, buf, todo - {k}) == if Fetch(orig[k], Some(buf)).Some? then n + 1 else n
  {
    var r := Readable(orig, buf, todo);
    if Fetch(orig[k], Some(buf)).Some? {
      assert Readable(orig, buf, todo - {k}) == r + {k};
    } else {
      assert Readable(orig, buf, todo - {k}) == r;
    }
  }

  lemma ReadableSize(orig: Locs, buf: seq<Byte>)
    ensures Readables(orig, buf, {}) <= |orig|
  {
    SubsetSize(Readable(orig, buf, {}), orig.Keys);
    assert |orig.Keys| == |orig|;
  }

  lemma MoreReadable(orig: Locs, buf: seq<Byte>, todo: set<HashKey>, k: HashKey)
    requires k in todo && k in orig && Fetch(orig[k], Some(buf)).Some?
    ensures Readables(orig, buf, todo) < Readables(orig, buf, {})
  {
    assert k in Readable(orig, buf, {}) - Readable(orig, buf, todo);
    SubsetSize(Readable(orig, buf, todo), Readable(orig, buf, {}) - {k});
  }

  lemma NoneReadable(orig: Locs, buf: seq<Byte>)
    ensures Readables(orig, buf, orig.Keys) == 0
  {
    assert Readable(orig, buf, orig.Keys) == {};
  }

  /** The state of the copy loop: the log is what the new file holds. */
  ghost predicate CopyState(orig: Locs, now: Locs, buf: seq<Byte>, todo: set<HashKey>, log: Log, out: seq<Byte>,
                            n: nat) {
    && Copying(orig, now, buf, todo, log)
    && out == Blocks(log, buf)
    && n == Readables(orig, buf, todo) && (n == 0 ==> log.Empty?)
  }

  class SharedTexts {
    const pgssMax: nat
    var table: Locs
    var file: Option<seq<Byte>>
    var extent: nat
    var meanQueryLen: nat
    var gcCount: nat

    constructor (pgssMax: nat)
      requires 0 < pgssMax
      ensures Valid() && this.pgssMax == pgssMax && table == map[] && file == Some([]) && extent == 0
      ensures meanQueryLen == 1024 && gcCount == 0
    {
      this.pgssMax := pgssMax;
      table, file, extent, meanQueryLen, gcCount := map[], Some([]), 0, ASSUMED_LENGTH_INIT, 0;
    }

    /** The hashtable holds at most pgss_max entries. */
    ghost predicate Valid()
      reads this
    {
      0 < pgssMax && |table| <= pgssMax
    }

    /** One turn of the loop: copies the text of an entry, or drops it if it cannot be read. */
    method CopyText(k: HashKey, buf: seq<Byte>, nentries: nat, failedWrite: Option<nat>, ghost orig: Locs,
                    ghost todo: set<HashKey>, ghost log: Log)
      returns (ok: bool, n: nat, ghost log': Log)
      requires file.Some? && CopyState(orig, table, buf, todo, log, file.value, nentries) && k in todo
      requires failedWrite.None? || nentries <= failedWrite.value
      modifies this`table, this`file
      ensures table.Keys == old(table.Keys) && file.Some?
      ensures ok ==> CopyState(orig, table, buf, todo - {k}, log', file.value, n)
      ensures ok ==> failedWrite.None? || n <= failedWrite.value
      ensures !ok ==> failedWrite.Some? && failedWrite.value < Readables(orig, buf, {})
    {
      ok, n, log' := true, nentries, log;
      var qry := Fetch(table[k], Some(buf));
      ReadableNext(orig, buf, todo, k);
      if qry.None? {
        DropNext(orig, table, buf, todo, log, k);
        table := table[k := DROPPED];
        return;
      }
      if failedWrite == Some(nentries) {
        MoreReadable(orig, buf, todo, k);
        return false, n, log';
      }
      var to := table[k].(offset := |file.value|);
      CopyNext(orig, table, buf, todo, log, k, to);
      log' := More(log, Move(k, orig[k], to));
      table, file := table[k := to], Some(file.value + (qry.value + [0]));
      n := n + 1;
    }

    /** The loop over the hashtable, which visits the entries in any order; it counts the texts it copies. */
    method CopyTexts(buf: seq<Byte>, failedWrite: Option<nat>) returns (ok: bool, nentries: nat)
      requires file.Some? && file.value == []
      modifies this`table, this`file
      ensures table.Keys == old(table.Keys) && file.Some?
      ensures ok <==> failedWrite.None? || Readables(old(table), buf, {}) <= failedWrite.value
      ensures ok ==> Compacted(old(table), table, buf, file.value)
      ensures ok ==> nentries == Readables(old(table), buf, {}) && (nentries == 0 ==> file.value == [])
    {
      ghost var orig := table;
      ghost var log := Empty;
      var todo := table.Keys;
      NoneReadable(orig, buf);
      ok, nentries := true, 0;
      while todo != {}
        invariant file.Some? && CopyState(orig, table, buf, todo, log, file.value, nentries)
        invariant failedWrite.None? || nentries <= failedWrite.value
        decreases |todo|
      {
        var k :| k in todo;
        ok, nentries, log := CopyText(k, buf, nentries, failedWrite, orig, todo, log);
        if !ok {
          return;
        }
        todo := todo - {k};
      }
      ok := true;
    }

    /**
     The label gc_fail: every text is lost, and the file starts afresh.  If it can be neither unlinked nor truncated,
     its content stays, but nothing refers to it.
     */
    method Fail(unlink: bool, recreate: bool)
      modifies this`table, this`file, this`extent, this`meanQueryLen, this`gcCount
      ensures table.Keys == old(table.Keys) && forall k :: k in table ==> table[k] == Loc(0, -1, 0, 0)
      ensures file == if !recreate then Some([]) else if !unlink then None else old(file)
      ensures extent == 0 && meanQueryLen == 1024 && gcCount == old(gcCount) + 1
    {
      var todo := table.Keys;
      while todo != {}
        invariant table.Keys == old(table.Keys) && todo <= table.Keys
        invariant forall k :: k in table && k !in todo ==> table[k] == DROPPED
        invariant gcCount == old(gcCount) && file == old(file)
        decreases |todo|
      {
        var k :| k in todo;
        table := table[k := DROPPED];
        todo := todo - {k};
      }
      if !unlink {
        file := None;
      }
      if !recreate {
        file := Some([]);
      }
      extent, meanQueryLen, gcCount := 0, ASSUMED_LENGTH_INIT, gcCount + 1;
    }

    /** The end of a collection. */
    method RecordCollection(nentries: nat)
      requires file.Some? && 0 < pgssMax && nentries <= pgssMax && (nentries == 0 ==> file.value == [])
      modifies this`extent, this`meanQueryLen, this`gcCount
      ensures extent == |file.value| && gcCount == old(gcCount) + 1
      ensures IsMean(meanQueryLen, extent, nentries) && Compact(extent, meanQueryLen, pgssMax)
    {
      extent := |file.value|;
      meanQueryLen := MeanLength(extent, nentries);
      gcCount := gcCount + 1;
      NoThrashing(extent, nentries, pgssMax);
    }

    /** What is done when a collection is due. */
    method Collect(fails: Failures) returns (outcome: Outcome)
      requires Valid()
      modifies this
      ensures Valid() && table.Keys == old(table.Keys) && !outcome.NotNeeded? && gcCount == old(gcCount) + 1
      ensures Compact(extent, meanQueryLen, pgssMax)
      ensures outcome.Collected? ==>
        && old(file).Some? && file.Some? && extent == |file.value|
        && Compacted(old(table), table, old(file).value, file.value)
        && IsMean(meanQueryLen, extent, Readables(old(table), old(file).value, {}))
      ensures outcome.Failed? ==>
        && extent == 0 && meanQueryLen == 1024
        && (!(fails.unlink && fails.recreate) ==> file == if fails.recreate then None else Some([]))
        && forall k :: k in table ==> table[k] == DROPPED
      ensures outcome.Failed? <==>
          || old(file).None? || fails.load || fails.open || fails.close
          || (fails.failedWrite.Some? && fails.failedWrite.value < Readables(old(table), old(file).value, {}))
    {
      if fails.load || file.None? || fails.open {
        Fail(fails.unlink, fails.recreate);
        return Failed;
      }
      var qbuffer := file.value;
      file := Some([]);
      var ok, nentries := CopyTexts(qbuffer, fails.failedWrite);
      assert |table.Keys| == |table|;
      if !ok || fails.close {
        Fail(fails.unlink, fails.recreate);
        return Failed;
      }
      ReadableSize(old(table), qbuffer);
      RecordCollection(nentries);
      outcome := Collected;
    }

    /** Whatever fails, no further collection is due afterwards. */
    method GcQtexts(fails: Failures) returns (outcome: Outcome)
      requires Valid()
      modifies this
      ensures Valid() && table.Keys == old(table.Keys)
      ensures Compact(extent, meanQueryLen, pgssMax)
      ensures outcome.NotNeeded? <==> Compact(old(extent), old(meanQueryLen), pgssMax)
      ensures outcome.NotNeeded? ==> unchanged(this)
      ensures !outcome.NotNeeded? ==> gcCount == old(gcCount) + 1
      ensures outcome.Collected? ==>
        && old(file).Some? && file.Some? && extent == |file.value|
        && Compacted(old(table), table, old(file).value, file.value)
        && IsMean(meanQueryLen, extent, Readables(old(table), old(file).value, {}))
      ensures outcome.Failed? ==>
        && extent == 0 && meanQueryLen == 1024
        && (!(fails.unlink && fails.recreate) ==> file == if fails.recreate then None else Some([]))
        && forall k :: k in table ==> table[k] == DROPPED
      ensures !outcome.NotNeeded? ==>
        (outcome.Failed? <==>
          || old(file).None? || fails.load || fails.open || fails.close
          || (fails.failedWrite.Some? && fails.failedWrite.value < Readables(old(table), old(file).value, {})))
    {
      if !NeedGc(extent, meanQueryLen, pgssMax) {
        return NotNeeded;
      }
      outcome := Collect(fails);
    }
  }
}
