/**
 What every interleaving of the query-text protocol keeps, and what a reader can therefore rely on.
 */
module TextInvariant {
  import opened Results
  import opened QueryTexts
  import opened TextProtocol

  // ---------------------------------------------------------------- the lock

  ghost predicate LocksOk(s: State) {
    && (forall p :: p in s.shared ==> p in s.procs)
    && (s.exclusive.Some? ==> s.exclusive.value in s.procs && s.shared == {})
    && forall p :: p in s.procs ==>
         && (p in s.shared <==> LockMode(s.procs[p]).Shared?)
         && (s.exclusive == Some(p) <==> LockMode(s.procs[p]).Exclusive?)
  }

  lemma LocksKept(s: State, p: Pid, o: Outcome)
    requires LocksOk(s) && LockFree(s, p, LockMode(o.pc))
    ensures LocksOk(Move(s, p, o))
  {
  }

  // ---------------------------------------------------------------- n_writers

  ghost function Writers(procs: map<Pid, Proc>): set<Pid> {
    set p | p in procs && InStore(procs[p])
  }

  predicate InStore(q: Proc) {
    q.Storing? && q.s.Writing?
  }

  lemma WritersKept(s: State, p: Pid, a: Action)
    requires Enabled(s, p, a) && s.store.writers == |Writers(s.procs)|
    ensures Next(s, p, a).store.writers == |Writers(Next(s, p, a).procs)|
  {
    var q, o := Pc(s, p), Effect(s.store, Pc(s, p), a).value;
    var w, w' := Writers(s.procs), Writers(s.procs[p := o.pc]);
    WritersChange(s.store, q, a);
    assert p in w <==> InStore(q);
    assert Next(s, p, a).procs == s.procs[p := o.pc];
    if InStore(o.pc) {
      assert w' == w + {p};
    } else {
      assert w' == w - {p};
    }
  }

  lemma WritersChange(st: Store, q: Proc, a: Action)
    requires Effect(st, q, a).Some?
    ensures
      var o := Effect(st, q, a).value;
      o.store.writers - st.writers == (if InStore(o.pc) then 1 else 0) - (if InStore(q) then 1 else 0)
  {
    match q
    case Idle =>
    case Storing(s) => if a.OfStore? { match a.store { case _ => } }
    case Rewriting(w) => match a.rewrite { case _ => }
    case Viewing(r) => match a.read { case _ => }
  }

  // ---------------------------------------------------------------- the table

  predicate Apart(a: nat, n: nat, b: nat, m: nat) {
    a + n <= b || b + m <= a
  }

  /** The entry still has its text. */
  predicate Live(t: Table, k: HashKey) {
    k in t && t[k].loc != DROPPED
  }

  function Off(t: Table, k: HashKey): nat
    requires Live(t, k)
  {
    t[k].loc.offset
  }

  function Img(t: Table, k: HashKey): seq<Byte>
    requires Live(t, k)
  {
    Image(t[k].origin)
  }

  ghost predicate TableOk(t: Table) {
    forall k :: Live(t, k) ==> Matches(t[k].loc, t[k].origin)
  }

  lemma TableKept(st: Store, q: Proc, a: Action)
    requires TableOk(st.table) && Effect(st, q, a).Some?
    ensures TableOk(Effect(st, q, a).value.store.table)
  {
    match q
    case Idle =>
    case Storing(s) => if a.OfStore? { match a.store { case _ => } }
    case Rewriting(w) => RewriteKeepsTable(st, w, a.rewrite);
    case Viewing(r) =>
  }

  lemma RewriteKeepsTable(st: Store, w: RewritePc, a: RewriteAction)
    requires TableOk(st.table) && RewriteStep(st, w, a).Some?
    ensures TableOk(RewriteStep(st, w, a).value.store.table)
  {
    if a.GcCopy? {
      var e := st.table[a.key];
      if Fetch(e.loc, Some(w.buf)).None? {
        RelocatedOk(st.table, a.key, DROPPED);
      } else {
        RelocatedOk(st.table, a.key, Moved(e, |w.out|).loc);
      }
    } else {
      match a { case _ => }
    }
  }

  lemma RelocatedOk(t: Table, k: HashKey, l: Loc)
    requires TableOk(t) && k in t && (l == DROPPED || (Live(t, k) && l == t[k].loc.(offset := l.offset)))
    ensures TableOk(t[k := t[k].(loc := l)])
  {
  }

  // ---------------------------------------------------------------- entries and claims

  /** Every live entry's text lies below `limit` in `f`, and no two overlap. */
  ghost predicate EntriesIn(t: Table, f: seq<Byte>, limit: nat) {
    && (forall k :: Live(t, k) ==> Off(t, k) + |Img(t, k)| <= limit && Holds(f, Off(t, k), Img(t, k)))
    && forall k, k' :: Live(t, k) && Live(t, k') && k != k' ==>
         Apart(Off(t, k), |Img(t, k)|, Off(t, k'), |Img(t, k')|)
  }

  /**
   The process owns a byte range of the file: it is writing it, or will publish it unless the file is rewritten first.
   */
  predicate Claims(st: Store, q: StorePc) {
    || q.Writing?
    || ((q.Stored? || q.Between? || q.Promoted?) && q.ok && q.gc == st.gcCount)
    || q.Ready?
  }

  /** The part of the claimed range that is in the file already. */
  function Written(st: Store, q: StorePc): seq<Byte>
    requires Claims(st, q)
  {
    if q.Writing? && q.done <= |Image(q.text)| then Image(q.text)[..q.done] else Image(q.text)
  }

  ghost predicate ClaimOk(st: Store, q: StorePc) {
    && (q.Writing? ==> q.done <= |Image(q.text)|)
    && (Claims(st, q) ==>
          && q.off + |Image(q.text)| <= st.extent
          && Holds(Bytes(st), q.off, Written(st, q))
          && forall k :: Live(st.table, k) ==> Apart(q.off, |Image(q.text)|, Off(st.table, k), |Img(st.table, k)|))
  }

  ghost predicate ClaimsApart(st: Store, q: StorePc, q': StorePc) {
    Claims(st, q) && Claims(st, q') ==> Apart(q.off, |Image(q.text)|, q'.off, |Image(q'.text)|)
  }

  // ---------------------------------------------------------------- readers

  /** What a reader may conclude if it finds the extent and the gc_count it sampled unchanged. */
  ghost predicate Unchanged(st: Store, ext: nat, gc: nat, known: bool) {
    gc == st.gcCount ==> ext <= st.extent && (ext == st.extent ==> known)
  }

  ghost predicate ReaderOk(st: Store, q: ReadPc) {
    match q
    case Sampled(ext, nw, gc) => Unchanged(st, ext, gc, nw == 0 ==> st.writers == 0)
    case Opened(ext, gc, ino) => Unchanged(st, ext, gc, st.writers == 0 && st.file.Some? && ino == st.inode)
    case Loading(ext, gc, ino, size, acc) =>
      Unchanged(st, ext, gc,
                && st.writers == 0 && st.file.Some? && ino == st.inode
                && size == |st.file.value| && acc <= st.file.value)
    case Loaded(ext, gc, image) => Unchanged(st, ext, gc, image.Some? ==> st.writers == 0 && image == st.file)
    case Checking(ext, gc, image) => Unchanged(st, ext, gc, image.Some? ==> st.writers == 0 && image == st.file)
    case Reopening => true
    case Reloading(size, acc) =>
      && |acc| <= size <= |Bytes(st)|
      && forall k :: Live(st.table, k) ==>
        Off(st.table, k) + |Img(st.table, k)| <= size && Agrees(acc, Off(st.table, k), Img(st.table, k))
    case Reading(image) =>
      image.Some? ==> forall k :: Live(st.table, k) ==> Holds(image.value, Off(st.table, k), Img(st.table, k))
  }

  /** As far as `acc` reaches, it has `bytes` at `off`. */
  ghost predicate Agrees(acc: seq<Byte>, off: nat, bytes: seq<Byte>) {
    forall i :: 0 <= i < |bytes| && off + i < |acc| ==> acc[off + i] == bytes[i]
  }

  // ---------------------------------------------------------------- rewriting

  /** The process may have left the file and the table in disagreement. */
  predicate Disturbs(q: Proc) {
    q.Rewriting? && !q.w.GcLoaded? && !q.w.Resetting? && !q.w.ResetEmptied?
  }

  /** The entries GC has copied already. */
  function Copied(t: Table, todo: set<HashKey>): Table {
    t - todo
  }

  ghost predicate RewriteOk(st: Store, q: RewritePc) {
    match q
    case GcLoaded(buf) => st.file == Some(buf)
    case GcCopying(buf, todo, out, pos) =>
      && todo <= st.table.Keys
      && pos <= |out|
      && |Bytes(st)| <= |out|
      && Holds(Bytes(st), 0, out[..pos])
      && (forall k :: Live(st.table, k) && k in todo ==> Holds(buf, Off(st.table, k), Img(st.table, k)))
      && EntriesIn(Copied(st.table, todo), out, |out|)
    case GcFailed(_, _) => true
    case GcInvalidated => forall k :: !Live(st.table, k)
    case GcUnlinked => forall k :: !Live(st.table, k)
    case Resetting => true
    case ResetEmptied => st.table == map[]
    case Rewritten(len) => EntriesIn(st.table, Bytes(st), len)
    case ExtentSet => EntriesIn(st.table, Bytes(st), st.extent)
  }

  // ---------------------------------------------------------------- the invariant

  /** The gc_count a process remembers. */
  function Remembered(q: Proc): nat {
    match q
    case Storing(Writing(_, _, _, gc, _, _)) => gc
    case Storing(Stored(_, _, _, gc, _)) => gc
    case Storing(Between(_, _, _, gc, _)) => gc
    case Storing(Promoted(_, _, _, gc, _)) => gc
    case Viewing(Sampled(_, _, gc)) => gc
    case Viewing(Opened(_, gc, _)) => gc
    case Viewing(Loading(_, gc, _, _, _)) => gc
    case Viewing(Loaded(_, gc, _)) => gc
    case Viewing(Checking(_, gc, _)) => gc
    case _ => 0
  }

  ghost predicate ProcOk(st: Store, q: Proc) {
    && (q.Storing? ==> ClaimOk(st, q.s))
    && (q.Viewing? ==> ReaderOk(st, q.r))
  }

  ghost predicate ProcsApart(st: Store, q: Proc, q': Proc) {
    q.Storing? && q'.Storing? ==> ClaimsApart(st, q.s, q'.s)
  }

  ghost predicate Quiet(s: State) {
    forall p :: p in s.procs ==> !Disturbs(s.procs[p])
  }

  ghost predicate StoreOk(s: State) {
    && EntriesIn(s.store.table, Bytes(s.store), s.store.extent)
    && (forall p :: p in s.procs ==> ProcOk(s.store, s.procs[p]))
    && forall p, p' :: p in s.procs && p' in s.procs && p != p' ==> ProcsApart(s.store, s.procs[p], s.procs[p'])
  }

  ghost predicate Inv(s: State) {
    && LocksOk(s)
    && s.store.writers == |Writers(s.procs)|
    && TableOk(s.store.table)
    && (forall p :: p in s.procs ==> Remembered(s.procs[p]) <= s.store.gcCount)
    && (forall p :: p in s.procs && s.procs[p].Rewriting? ==> RewriteOk(s.store, s.procs[p].w))
    && (Quiet(s) ==> StoreOk(s))
  }

  /** A server that has just started, with the table it loaded from the dump file. */
  ghost predicate Init(s: State) {
    && s.procs == map[] && s.shared == {} && s.exclusive == None
    && s.store.writers == 0
    && TableOk(s.store.table)
    && EntriesIn(s.store.table, Bytes(s.store), s.store.extent)
  }

  // ---------------------------------------------------------------- steps that leave the store alone

  lemma FreeStepIsLocal(st: Store, q: Proc, a: Action)
    requires Effect(st, q, a).Some? && LockMode(q).Free?
    ensures Effect(st, q, a).value.store == st
    ensures !Disturbs(Effect(st, q, a).value.pc)
  {
    match q
    case Idle =>
    case Storing(s) => if a.OfStore? { match a.store { case _ => } }
    case Viewing(r) => match a.read { case _ => }
  }

  lemma RememberedKept(st: Store, q: Proc, a: Action)
    requires Effect(st, q, a).Some? && Remembered(q) <= st.gcCount
    ensures st.gcCount <= Effect(st, q, a).value.store.gcCount
    ensures Remembered(Effect(st, q, a).value.pc) <= st.gcCount
  {
    match q
    case Idle =>
    case Storing(s) => if a.OfStore? { match a.store { case _ => } }
    case Rewriting(w) => match a.rewrite { case _ => }
    case Viewing(r) => match a.read { case _ => }
  }

  lemma LiveTextsFit(t: Table, f: seq<Byte>, limit: nat)
    requires EntriesIn(t, f, limit)
    ensures forall k :: Live(t, k) ==> Off(t, k) + |Img(t, k)| <= |f|
  {
    forall k | Live(t, k) ensures Off(t, k) + |Img(t, k)| <= |f| {
      HoldsAt(f, Off(t, k), Img(t, k), |Img(t, k)| - 1);
    }
  }

  lemma ReloadMore(f: seq<Byte>, acc: seq<Byte>, n: nat, off: nat, bytes: seq<Byte>)
    requires Holds(f, off, bytes) && Agrees(acc, off, bytes) && |acc| + n <= |f|
    ensures Agrees(acc + f[|acc|..|acc| + n], off, bytes)
  {
  }

  lemma ReloadAll(acc: seq<Byte>, off: nat, bytes: seq<Byte>)
    requires Agrees(acc, off, bytes) && off + |bytes| <= |acc|
    ensures Holds(acc, off, bytes)
  {
  }

  /** Reading under the shared lock, or validating an earlier read, yields every live text. */
  lemma ReadStepOk(st: Store, q: ReadPc, a: ReadAction)
    requires EntriesIn(st.table, Bytes(st), st.extent) && ReaderOk(st, q) && ReadStep(st, q, a).Some?
    ensures ProcOk(st, ReadStep(st, q, a).value)
  {
    if a.ReloadStat? {
      LiveTextsFit(st.table, Bytes(st), st.extent);
    } else if a.Reload? {
      var acc := q.acc + Bytes(st)[|q.acc|..|q.acc| + a.n];
      forall k | Live(st.table, k) ensures Agrees(acc, Off(st.table, k), Img(st.table, k)) {
        ReloadMore(Bytes(st), q.acc, a.n, Off(st.table, k), Img(st.table, k));
      }
    } else if a.ReloadEnd? {
      forall k | Live(st.table, k) ensures Holds(q.acc, Off(st.table, k), Img(st.table, k)) {
        ReloadAll(q.acc, Off(st.table, k), Img(st.table, k));
      }
    } else {
      UnlockedStepOk(st, q, a);
    }
  }

  lemma UnlockedStepOk(st: Store, q: ReadPc, a: ReadAction)
    requires ReaderOk(st, q) && ReadStep(st, q, a).Some? && !a.ReloadStat? && !a.Reload? && !a.ReloadEnd?
    requires EntriesIn(st.table, Bytes(st), st.extent)
    ensures ProcOk(st, ReadStep(st, q, a).value)
  {
    if a.Read? {
      var acc := q.acc + Bytes(st)[|q.acc|..|q.acc| + a.n];
      assert q.acc <= Bytes(st) ==> acc == Bytes(st)[..|q.acc| + a.n];
    } else if a.ReadEnd? {
      assert q.acc <= Bytes(st) && |q.acc| == |Bytes(st)| ==> q.acc == Bytes(st);
    }
  }

  /** Steps of a storing process that change only its own program point. */
  predicate Internal(a: StoreAction) {
    !a.Reserve? && !a.Write? && !a.WriteDone? && !a.WriteFail? && !a.Publish?
  }

  /** An internal step keeps the process's claim, or gives it up. */
  lemma InternalStepOk(st: Store, q: StorePc, a: StoreAction)
    requires ClaimOk(st, q) && StoreStep(st, q, a).Some? && Internal(a)
    ensures
      var o := StoreStep(st, q, a).value;
      && o.store == st && !o.pc.Rewriting? && ProcOk(st, o.pc)
      && forall q' :: ProcsApart(st, q', Storing(q)) ==> ProcsApart(st, q', o.pc)
  {
    match a { case _ => }
  }

  // ---------------------------------------------------------------- steps that change the store, one lemma each

  /** The processes other than `p` are unaffected by its step. */
  ghost predicate OthersOk(s: State, p: Pid, st': Store) {
    && (forall p' :: p' in s.procs && p' != p ==> ProcOk(st', s.procs[p']))
    && forall p', p'' :: p' in s.procs && p'' in s.procs && p' != p && p'' != p && p' != p'' ==>
         ProcsApart(st', s.procs[p'], s.procs[p''])
  }

  ghost predicate ApartFromOthers(s: State, p: Pid, o: Outcome) {
    forall p' :: p' in s.procs && p' != p ==>
      ProcsApart(o.store, s.procs[p'], o.pc) && ProcsApart(o.store, o.pc, s.procs[p'])
  }

  lemma StoreOkFromParts(s: State, p: Pid, o: Outcome)
    requires EntriesIn(o.store.table, Bytes(o.store), o.store.extent)
    requires ProcOk(o.store, o.pc) && OthersOk(s, p, o.store) && ApartFromOthers(s, p, o)
    ensures StoreOk(Move(s, p, o))
  {
  }

  lemma WriterCounted(s: State, p: Pid)
    requires p in s.procs && InStore(s.procs[p])
    ensures |Writers(s.procs)| >= 1
  {
    assert p in Writers(s.procs);
  }

  lemma ReserveOk(s: State, p: Pid, q: StorePc, o: Outcome)
    requires StoreOk(s) && Pc(s, p) == Storing(q) && (q.Missed? || q.Promoted?)
    requires o.store == s.store.(extent := s.store.extent + |Image(q.text)|, writers := s.store.writers + 1)
    requires o.pc == Storing(Writing(q.key, q.text, s.store.extent, s.store.gcCount, 0, q.Promoted?))
    ensures StoreOk(Move(s, p, o))
  {
    forall p' | p' in s.procs && p' != p ensures ProcOk(o.store, s.procs[p']) {
      assert ProcOk(s.store, s.procs[p']);
    }
    StoreOkFromParts(s, p, o);
  }

  lemma WriteKeepsOthers(st: Store, q: StorePc, n: nat, st': Store, q': Proc)
    requires ClaimOk(st, q) && q.Writing? && q.done + n <= |Image(q.text)|
    requires st' == st.(file := Some(PWrite(Bytes(st), q.off + q.done, Image(q.text)[q.done..q.done + n])))
    requires ProcOk(st, q') && ProcsApart(st, Storing(q), q') && st.writers >= 1
    ensures ProcOk(st', q')
  {
    if q'.Storing? && Claims(st, q'.s) {
      PWriteKeeps(Bytes(st), q.off + q.done, Image(q.text)[q.done..q.done + n], q'.s.off, Written(st, q'.s));
    }
  }

  lemma WriteKeepsEntries(t: Table, f: seq<Byte>, limit: nat, off: nat, data: seq<Byte>)
    requires EntriesIn(t, f, limit)
    requires forall k :: Live(t, k) ==> Apart(off, |data|, Off(t, k), |Img(t, k)|)
    ensures EntriesIn(t, PWrite(f, off, data), limit)
  {
    forall k | Live(t, k) ensures Holds(PWrite(f, off, data), Off(t, k), Img(t, k)) {
      PWriteKeeps(f, off, data, Off(t, k), Img(t, k));
    }
  }

  lemma WriteExtendsClaim(st: Store, q: StorePc, n: nat, st': Store)
    requires ClaimOk(st, q) && q.Writing? && q.done + n <= |Image(q.text)|
    requires st' == st.(file := Some(PWrite(Bytes(st), q.off + q.done, Image(q.text)[q.done..q.done + n])))
    ensures ClaimOk(st', q.(done := q.done + n))
  {
    PWriteExtends(Bytes(st), q.off, Image(q.text), q.done, n);
  }

  lemma WriteOk(s: State, p: Pid, q: StorePc, n: nat, o: Outcome)
    requires StoreOk(s) && Pc(s, p) == Storing(q) && q.Writing? && q.done + n <= |Image(q.text)| && s.store.writers >= 1
    requires
      var data := Image(q.text)[q.done..q.done + n];
      o.store == s.store.(file := Some(PWrite(Bytes(s.store), q.off + q.done, data)))
    requires o.pc == Storing(q.(done := q.done + n))
    ensures StoreOk(Move(s, p, o))
  {
    assert ProcOk(s.store, s.procs[p]);
    WriteKeepsEntries(s.store.table, Bytes(s.store), s.store.extent, q.off + q.done, Image(q.text)[q.done..q.done + n]);
    WriteExtendsClaim(s.store, q, n, o.store);
    forall p' | p' in s.procs && p' != p
      ensures ProcOk(o.store, s.procs[p']) && ProcsApart(o.store, s.procs[p'], o.pc)
    {
      WriteKeepsOthers(s.store, q, n, o.store, s.procs[p']);
    }
    StoreOkFromParts(s, p, o);
  }

  lemma WriteEndOk(s: State, p: Pid, q: StorePc, o: Outcome)
    requires StoreOk(s) && Pc(s, p) == Storing(q) && q.Writing? && s.store.writers >= 1
    requires o.store == s.store.(writers := s.store.writers - 1)
    requires
      || o.pc == Storing(Holding(false))
      || o.pc == Storing(Stored(q.key, q.text, q.off, q.gc, false))
      || (q.done == |Image(q.text)| && o.pc == Storing(Stored(q.key, q.text, q.off, q.gc, true)))
      || (q.done == |Image(q.text)| && o.pc == Storing(Ready(q.key, q.text, q.off)))
    ensures StoreOk(Move(s, p, o))
  {
    assert q.done == |Image(q.text)| ==> Image(q.text)[..q.done] == Image(q.text);
    assert ProcOk(s.store, s.procs[p]);
    forall p' | p' in s.procs && p' != p ensures ProcOk(o.store, s.procs[p']) {
      assert ProcOk(s.store, s.procs[p']);
    }
    forall p' | p' in s.procs && p' != p ensures ProcsApart(o.store, s.procs[p'], o.pc) {
      assert ProcsApart(s.store, s.procs[p'], s.procs[p]);
    }
    StoreOkFromParts(s, p, o);
  }

  /** What a process without the lock relies on does not mention the table, except that its claim overlaps no entry. */
  lemma TableChange(st: Store, table': Table, q: Proc)
    requires ProcOk(st, q) && LockMode(q).Free?
    requires q.Storing? && Claims(st, q.s) ==> forall k :: Live(table', k) ==>
        Apart(q.s.off, |Image(q.s.text)|, Off(table', k), |Img(table', k)|)
    ensures ProcOk(st.(table := table'), q)
  {
  }

  lemma EnteredEntry(t: Table, victims: set<HashKey>, key: HashKey, text: Text, off: nat, k: HashKey)
    requires Live(Entered(t, victims, key, text, off), k)
    ensures
      var t' := Entered(t, victims, key, text, off);
      (Live(t, k) && t'[k] == t[k]) || (k == key && Off(t', k) == off && Img(t', k) == Image(text))
  {
  }

  lemma EnteredEntries(t: Table, f: seq<Byte>, limit: nat, victims: set<HashKey>, key: HashKey, text: Text, off: nat)
    requires EntriesIn(t, f, limit) && off + |Image(text)| <= limit && Holds(f, off, Image(text))
    requires forall k :: Live(t, k) ==> Apart(off, |Image(text)|, Off(t, k), |Img(t, k)|)
    ensures EntriesIn(Entered(t, victims, key, text, off), f, limit)
  {
    var t' := Entered(t, victims, key, text, off);
    forall k | Live(t', k) ensures Off(t', k) + |Img(t', k)| <= limit && Holds(f, Off(t', k), Img(t', k)) {
      EnteredEntry(t, victims, key, text, off, k);
    }
    forall k, k' | Live(t', k) && Live(t', k') && k != k'
      ensures Apart(Off(t', k), |Img(t', k)|, Off(t', k'), |Img(t', k')|)
    {
      EnteredEntry(t, victims, key, text, off, k);
      EnteredEntry(t, victims, key, text, off, k');
    }
  }

  lemma PublishOk(s: State, p: Pid, q: StorePc, victims: set<HashKey>, o: Outcome)
    requires StoreOk(s) && Pc(s, p) == Storing(q) && q.Ready?
    requires forall p' :: p' in s.procs && p' != p ==> LockMode(s.procs[p']).Free?
    requires o.store == s.store.(table := Entered(s.store.table, victims, q.key, q.text, q.off))
    requires o.pc == Storing(Holding(true))
    ensures StoreOk(Move(s, p, o))
  {
    var t := s.store.table;
    assert ProcOk(s.store, s.procs[p]);
    EnteredEntries(t, Bytes(s.store), s.store.extent, victims, q.key, q.text, q.off);
    forall p' | p' in s.procs && p' != p ensures ProcOk(o.store, s.procs[p']) {
      var q' := s.procs[p'];
      assert ProcOk(s.store, q') && ProcsApart(s.store, q', s.procs[p]);
      forall k | q'.Storing? && Claims(s.store, q'.s) && Live(o.store.table, k)
        ensures Apart(q'.s.off, |Image(q'.s.text)|, Off(o.store.table, k), |Img(o.store.table, k)|)
      {
        EnteredEntry(t, victims, q.key, q.text, q.off, k);
      }
      TableChange(s.store, o.store.table, q');
    }
    StoreOkFromParts(s, p, o);
  }

  lemma RemoveOk(s: State, p: Pid, keys: set<HashKey>, o: Outcome)
    requires StoreOk(s)
    requires forall p' :: p' in s.procs && p' != p ==> LockMode(s.procs[p']).Free?
    requires o.store == s.store.(table := s.store.table - keys)
    requires o.pc == Rewriting(ResetEmptied) || o.pc == Storing(Holding(false))
    ensures StoreOk(Move(s, p, o))
  {
    var t, t' := s.store.table, o.store.table;
    assert forall k :: Live(t', k) ==> Live(t, k) && t'[k] == t[k];
    forall p' | p' in s.procs && p' != p ensures ProcOk(o.store, s.procs[p']) {
      assert ProcOk(s.store, s.procs[p']);
      TableChange(s.store, t', s.procs[p']);
    }
    StoreOkFromParts(s, p, o);
  }

  // ---------------------------------------------------------------- rewriting the file

  /** GC copies one entry: its text is found in the old image and appended to the new one. */
  lemma GcCopyOk(st: Store, q: RewritePc, k: HashKey)
    requires TableOk(st.table) && q.GcCopying? && RewriteOk(st, q) && k in q.todo && k in st.table
    ensures
      var o := RewriteStep(st, q, GcCopy(k)).value;
      RewriteOk(o.store, o.pc.w)
  {
    var t := st.table;
    var text := Fetch(t[k].loc, Some(q.buf));
    if text.Some? {
      assert Live(t, k);
      FetchOfImage(q.buf, t[k].loc, t[k].origin);
      assert q.out + text.value + [0] == q.out + Img(t, k);
      CopyAppends(t, q.todo, q.out, k);
      assert (q.out + Img(t, k))[..q.pos] == q.out[..q.pos];
    } else {
      CopyDrops(t, q.todo, q.out, k);
    }
  }

  lemma CopyDrops(t: Table, todo: set<HashKey>, out: seq<Byte>, k: HashKey)
    requires EntriesIn(Copied(t, todo), out, |out|) && k in todo && k in t
    ensures EntriesIn(Copied(t[k := t[k].(loc := DROPPED)], todo - {k}), out, |out|)
  {
    var c, c' := Copied(t, todo), Copied(t[k := t[k].(loc := DROPPED)], todo - {k});
    assert forall j :: Live(c', j) ==> Live(c, j) && c'[j] == c[j];
  }

  lemma CopyAppends(t: Table, todo: set<HashKey>, out: seq<Byte>, k: HashKey)
    requires EntriesIn(Copied(t, todo), out, |out|) && k in todo && Live(t, k) && Matches(t[k].loc, t[k].origin)
    ensures EntriesIn(Copied(t[k := Moved(t[k], |out|)], todo - {k}), out + Img(t, k), |out + Img(t, k)|)
  {
    var c, c' := Copied(t, todo), Copied(t[k := Moved(t[k], |out|)], todo - {k});
    var out' := out + Img(t, k);
    assert forall j :: Live(c', j) && j != k ==> Live(c, j) && c'[j] == c[j];
    forall j | Live(c', j) ensures Off(c', j) + |Img(c', j)| <= |out'| && Holds(out', Off(c', j), Img(c', j)) {
      assert j != k ==> Holds(out, Off(c, j), Img(c, j));
    }
  }

  /** GC writes a buffered part of the new image to the file. */
  lemma GcFlushOk(st: Store, q: RewritePc, n: nat)
    requires q.GcCopying? && RewriteOk(st, q) && q.pos + n <= |q.out|
    ensures
      var o := RewriteStep(st, q, GcFlush(n)).value;
      RewriteOk(o.store, o.pc.w)
  {
    PWriteExtends(Bytes(st), 0, q.out, q.pos, n);
  }

  lemma GcCloseOk(st: Store, q: RewritePc)
    requires q.GcCopying? && RewriteOk(st, q) && q.todo == {} && q.pos == |q.out|
    ensures RewriteOk(st, Rewritten(|q.out|))
  {
    assert Copied(st.table, {}) == st.table;
    assert q.out[..q.pos] == q.out;
    HoldsAll(Bytes(st), q.out);
  }

  lemma GcOpenOk(st: Store, q: RewritePc)
    requires q.GcLoaded? && RewriteOk(st, q) && EntriesIn(st.table, Bytes(st), st.extent)
    ensures
      var o := RewriteStep(st, q, GcOpen).value;
      RewriteOk(o.store, o.pc.w)
  {
    assert Copied(st.table, st.table.Keys) == map[];
  }

  lemma RewriteStepOk(st: Store, q: RewritePc, a: RewriteAction)
    requires TableOk(st.table) && RewriteOk(st, q) && RewriteStep(st, q, a).Some?
    requires !Disturbs(Rewriting(q)) ==> EntriesIn(st.table, Bytes(st), st.extent)
    ensures
      var o := RewriteStep(st, q, a).value;
      o.pc.Rewriting? ==> RewriteOk(o.store, o.pc.w)
  {
    match a
    case GcOpen => GcOpenOk(st, q);
    case GcCopy(k) => GcCopyOk(st, q, k);
    case GcFlush(n) => GcFlushOk(st, q, n);
    case GcClose => GcCloseOk(st, q);
    case _ =>
  }

  /** Advancing gc_count after a rewrite makes every remembered claim and every sampled version stale. */
  lemma BumpOk(s: State, p: Pid, o: Outcome)
    requires Pc(s, p) == Rewriting(ExtentSet) && RewriteOk(s.store, ExtentSet)
    requires forall p' :: p' in s.procs && p' != p ==>
      LockMode(s.procs[p']).Free? && Remembered(s.procs[p']) <= s.store.gcCount
    requires o == Outcome(s.store.(gcCount := s.store.gcCount + 1), Storing(Holding(false)))
    ensures StoreOk(Move(s, p, o))
  {
    forall p' | p' in s.procs && p' != p
      ensures ProcOk(o.store, s.procs[p']) && !(s.procs[p'].Storing? && Claims(o.store, s.procs[p'].s))
    {
      assert Remembered(s.procs[p']) < o.store.gcCount;
    }
    StoreOkFromParts(s, p, o);
  }

  // ---------------------------------------------------------------- every step keeps the invariant

  /** While a process holds the exclusive lock, no other process holds any. */
  lemma ExclusiveIsAlone(s: State, p: Pid, p': Pid)
    requires LocksOk(s) && p in s.procs && p' in s.procs && p != p' && LockMode(s.procs[p]).Exclusive?
    ensures LockMode(s.procs[p']).Free?
  {
    assert s.exclusive == Some(p);
  }

  lemma PublishAloneOk(s: State, p: Pid, q: StorePc, victims: set<HashKey>, o: Outcome)
    requires Inv(s) && Quiet(s) && p in s.procs && s.procs[p] == Storing(q)
    requires StoreStep(s.store, q, Publish(victims)) == Some(o)
    ensures StoreOk(Move(s, p, o))
  {
    forall p' | p' in s.procs && p' != p ensures LockMode(s.procs[p']).Free? {
      ExclusiveIsAlone(s, p, p');
    }
    assert ProcOk(s.store, s.procs[p]);
    PublishOk(s, p, q, victims, o);
  }

  lemma StoringStepOk(s: State, p: Pid, q: StorePc, a: StoreAction)
    requires Inv(s) && Quiet(s) && p in s.procs && s.procs[p] == Storing(q) && StoreStep(s.store, q, a).Some?
    ensures StoreOk(Move(s, p, StoreStep(s.store, q, a).value))
  {
    var o := StoreStep(s.store, q, a).value;
    assert ProcOk(s.store, s.procs[p]);
    if q.Writing? {
      WriterCounted(s, p);
    }
    match a
    case Reserve => ReserveOk(s, p, q, o);
    case Write(n) => WriteOk(s, p, q, n, o);
    case WriteDone => WriteEndOk(s, p, q, o);
    case WriteFail => WriteEndOk(s, p, q, o);
    case Publish(victims) => PublishAloneOk(s, p, q, victims, o);
    case _ => StoringInternallyOk(s, p, q, a, o);
  }

  lemma StoringInternallyOk(s: State, p: Pid, q: StorePc, a: StoreAction, o: Outcome)
    requires StoreOk(s) && p in s.procs && s.procs[p] == Storing(q)
    requires Internal(a) && StoreStep(s.store, q, a) == Some(o)
    ensures StoreOk(Move(s, p, o))
  {
    assert ProcOk(s.store, s.procs[p]);
    InternalStepOk(s.store, q, a);
    StoreOkFromParts(s, p, o);
  }

  lemma RewritingStepOk(s: State, p: Pid, q: RewritePc, a: RewriteAction)
    requires Inv(s) && p in s.procs && s.procs[p] == Rewriting(q) && RewriteStep(s.store, q, a).Some?
    requires !Disturbs(RewriteStep(s.store, q, a).value.pc)
    ensures StoreOk(Move(s, p, RewriteStep(s.store, q, a).value))
  {
    var o := RewriteStep(s.store, q, a).value;
    forall p' | p' in s.procs && p' != p ensures LockMode(s.procs[p']).Free? {
      ExclusiveIsAlone(s, p, p');
    }
    if a.Bump? {
      BumpOk(s, p, o);
    } else {
      assert a.Remove? by { match a { case _ => } }
      RemoveOk(s, p, a.keys, o);
    }
  }

  /** Beginning to look up, sample, collect or reset claims nothing. */
  lemma BeginOk(s: State, p: Pid, a: Action)
    requires StoreOk(s) && s.store.writers >= 0 && Begin(s.store, Pc(s, p), a).Some?
    ensures StoreOk(Move(s, p, Begin(s.store, Pc(s, p), a).value))
  {
    StoreOkFromParts(s, p, Begin(s.store, Pc(s, p), a).value);
  }

  lemma ReadingStepOk(s: State, p: Pid, q: ReadPc, a: ReadAction, o: Outcome)
    requires StoreOk(s) && p in s.procs && s.procs[p] == Viewing(q)
    requires ReadStep(s.store, q, a).Some? && o == Outcome(s.store, ReadStep(s.store, q, a).value)
    ensures StoreOk(Move(s, p, o))
  {
    assert ProcOk(s.store, s.procs[p]);
    ReadStepOk(s.store, q, a);
    assert !o.pc.Storing? by { match a { case _ => } }
    StoreOkFromParts(s, p, o);
  }

  /** A step leading to a state where no rewrite is under way leaves every entry and process consistent. */
  lemma StoreOkKept(s: State, p: Pid, a: Action)
    requires Inv(s) && Enabled(s, p, a) && Quiet(Next(s, p, a))
    ensures StoreOk(Next(s, p, a))
  {
    var q := Pc(s, p);
    var o := Effect(s.store, q, a).value;
    assert Next(s, p, a).procs[p] == o.pc;
    if q.Rewriting? {
      RewritingStepOk(s, p, q.w, a.rewrite);
    } else {
      forall p' | p' in s.procs ensures !Disturbs(s.procs[p']) {
        assert p' != p ==> Next(s, p, a).procs[p'] == s.procs[p'];
      }
      if q.Storing? && a.OfStore? {
        StoringStepOk(s, p, q.s, a.store);
      } else if q.Viewing? {
        ReadingStepOk(s, p, q.r, a.read, o);
      } else {
        BeginOk(s, p, a);
      }
    }
  }

  lemma RewriteOkKept(s: State, p: Pid, a: Action, p': Pid)
    requires Inv(s) && Enabled(s, p, a) && p' in Next(s, p, a).procs && Next(s, p, a).procs[p'].Rewriting?
    ensures RewriteOk(Next(s, p, a).store, Next(s, p, a).procs[p'].w)
  {
    var q := Pc(s, p);
    if p' != p {
      assert s.procs[p'] == Next(s, p, a).procs[p'];
      if p in s.procs {
        ExclusiveIsAlone(s, p', p);
      }
      FreeStepIsLocal(s.store, q, a);
    } else if q.Rewriting? {
      if !Disturbs(q) {
        assert Quiet(s) by {
          forall r | r in s.procs && r != p ensures !Disturbs(s.procs[r]) {
            ExclusiveIsAlone(s, p, r);
          }
        }
      }
      RewriteStepOk(s.store, q.w, a.rewrite);
    } else {
      BeginsRewrite(s.store, q, a);
    }
  }

  lemma BeginsRewrite(st: Store, q: Proc, a: Action)
    requires !q.Rewriting? && Effect(st, q, a).Some? && Effect(st, q, a).value.pc.Rewriting?
    ensures RewriteOk(Effect(st, q, a).value.store, Effect(st, q, a).value.pc.w)
  {
    match q
    case Idle =>
    case Storing(s) => if a.OfStore? { match a.store { case _ => } }
    case Viewing(r) => match a.read { case _ => }
  }

  lemma InvKept(s: State, p: Pid, a: Action)
    requires Inv(s) && Enabled(s, p, a)
    ensures Inv(Next(s, p, a))
  {
    var q, s' := Pc(s, p), Next(s, p, a);
    LocksKept(s, p, Effect(s.store, q, a).value);
    WritersKept(s, p, a);
    TableKept(s.store, q, a);
    RememberedKept(s.store, q, a);
    forall p' | p' in s'.procs && s'.procs[p'].Rewriting? ensures RewriteOk(s'.store, s'.procs[p'].w) {
      RewriteOkKept(s, p, a, p');
    }
    if Quiet(s') {
      StoreOkKept(s, p, a);
    }
  }

  /** Every state of every interleaving satisfies the invariant. */
  lemma {:induction false} InvReachable(s: State, steps: seq<(Pid, Action)>, s': State)
    requires Inv(s) && Runs(s, steps, s')
    ensures Inv(s')
    decreases |steps|
  {
    if steps == [] {
    } else {
      InvKept(s, steps[0].0, steps[0].1);
      InvReachable(Next(s, steps[0].0, steps[0].1), steps[1..], s');
    }
  }

  lemma InitInv(s: State)
    requires Init(s)
    ensures Inv(s)
  {
    assert Writers(s.procs) == {};
  }

  // ---------------------------------------------------------------- what the protocol is for

  /**
   In every reachable state in which nobody is rewriting the file, each entry that has a valid length
   points at exactly the tag, extras, query and NUL it was created with.
   */
  lemma EntriesKeepTheirTexts(s0: State, steps: seq<(Pid, Action)>, s: State, k: HashKey)
    requires Init(s0) && Runs(s0, steps, s) && Quiet(s) && k in s.store.table
    ensures
      var e := s.store.table[k];
      if e.loc == DROPPED then Fetch(e.loc, s.store.file) == None && ReadText(e.loc, s.store.file) == None
      else
        && Holds(Bytes(s.store), e.loc.offset, Image(e.origin))
        && Fetch(e.loc, s.store.file) == Some(Body(e.origin))
        && ReadText(e.loc, s.store.file) == Some(e.origin)
  {
    InitInv(s0);
    InvReachable(s0, steps, s);
    QuietText(s, k);
  }

  lemma QuietText(s: State, k: HashKey)
    requires Inv(s) && Quiet(s) && k in s.store.table
    ensures
      var e := s.store.table[k];
      if e.loc == DROPPED then Fetch(e.loc, s.store.file) == None && ReadText(e.loc, s.store.file) == None
      else
        && Holds(Bytes(s.store), e.loc.offset, Image(e.origin))
        && Fetch(e.loc, s.store.file) == Some(Body(e.origin))
        && ReadText(e.loc, s.store.file) == Some(e.origin)
  {
    var e := s.store.table[k];
    if e.loc != DROPPED {
      assert Live(s.store.table, k);
      FetchOfImage(Bytes(s.store), e.loc, e.origin);
      assert s.store.file == Some(Bytes(s.store)) by {
        assert Bytes(s.store)[e.loc.offset + 0] == Image(e.origin)[0];
      }
    }
  }

  /** A process that holds the lock in any mode, and is not itself rewriting, finds the file quiet. */
  lemma LockMeansQuiet(s: State, p: Pid)
    requires Inv(s) && p in s.procs && !LockMode(s.procs[p]).Free? && !Disturbs(s.procs[p])
    ensures Quiet(s)
  {
    forall p' | p' in s.procs ensures !Disturbs(s.procs[p']) {
      if p' != p && Disturbs(s.procs[p']) {
        ExclusiveIsAlone(s, p', p);
      }
    }
  }

  /**
   A reader that reaches the point of scanning the table with a file image, whether it loaded that image
   without any lock or under the shared lock, fetches the true text of every entry that has one.
   */
  lemma ReaderSeesTrueTexts(s0: State, steps: seq<(Pid, Action)>, s: State, p: Pid, image: seq<Byte>, k: HashKey)
    requires Init(s0) && Runs(s0, steps, s)
    requires p in s.procs && s.procs[p] == Viewing(Reading(Some(image))) && k in s.store.table
    ensures TrueText(s.store.table[k], image)
  {
    InitInv(s0);
    InvReachable(s0, steps, s);
    ReadingTrueText(s, p, image, k);
  }

  /** The entry reads from the image what it was created with; if its text was lost, it reads nothing. */
  predicate TrueText(e: Entry, image: seq<Byte>) {
    if e.loc == DROPPED then Fetch(e.loc, Some(image)) == None && ReadText(e.loc, Some(image)) == None
    else Fetch(e.loc, Some(image)) == Some(Body(e.origin)) && ReadText(e.loc, Some(image)) == Some(e.origin)
  }

  lemma ReadingTrueText(s: State, p: Pid, image: seq<Byte>, k: HashKey)
    requires Inv(s) && p in s.procs && s.procs[p] == Viewing(Reading(Some(image))) && k in s.store.table
    ensures TrueText(s.store.table[k], image)
  {
    LockMeansQuiet(s, p);
    assert ProcOk(s.store, s.procs[p]);
    if Live(s.store.table, k) {
      FetchOfImage(image, s.store.table[k].loc, s.store.table[k].origin);
    }
  }

  /** n_writers counts the processes inside qtext_store; none is inside while the file is rewritten. */
  lemma WritersCounted(s0: State, steps: seq<(Pid, Action)>, s: State)
    requires Init(s0) && Runs(s0, steps, s)
    ensures s.store.writers == |Writers(s.procs)|
    ensures !Quiet(s) ==> s.store.writers == 0
  {
    InitInv(s0);
    InvReachable(s0, steps, s);
    if !Quiet(s) {
      var p :| p in s.procs && Disturbs(s.procs[p]);
      forall p' | p' in s.procs ensures !InStore(s.procs[p']) {
        if p' != p {
          ExclusiveIsAlone(s, p, p');
        }
      }
      assert Writers(s.procs) == {};
    }
  }

  // ---------------------------------------------------------------- (gc_count, extent) is a version number

  predicate NotBefore(gc: nat, ext: nat, gc': nat, ext': nat) {
    gc < gc' || (gc == gc' && ext <= ext')
  }

  lemma StepVersion(st: Store, q: Proc, a: Action)
    requires Effect(st, q, a).Some?
    ensures
      var o := Effect(st, q, a).value;
      && st.gcCount <= o.store.gcCount
      && (!Disturbs(q) && !Disturbs(o.pc) ==> NotBefore(st.gcCount, st.extent, o.store.gcCount, o.store.extent))
      && (Disturbs(q) && !Disturbs(o.pc) ==> st.gcCount < o.store.gcCount)
  {
    match q
    case Idle =>
    case Storing(s) => if a.OfStore? { match a.store { case _ => } }
    case Rewriting(w) => match a.rewrite { case _ => }
    case Viewing(r) => match a.read { case _ => }
  }

  /** As seen outside rewrites, the pair (gc_count, extent) never goes back. */
  lemma {:induction false} VersionNeverGoesBack(s: State, steps: seq<(Pid, Action)>, s': State)
    requires Inv(s) && Runs(s, steps, s') && Quiet(s')
    ensures s.store.gcCount <= s'.store.gcCount
    ensures Quiet(s) ==> NotBefore(s.store.gcCount, s.store.extent, s'.store.gcCount, s'.store.extent)
    ensures !Quiet(s) ==> s.store.gcCount < s'.store.gcCount
    decreases |steps|
  {
    if steps == [] {
    } else {
      var (p, a) := steps[0];
      var m := Next(s, p, a);
      InvKept(s, p, a);
      VersionNeverGoesBack(m, steps[1..], s');
      StepVersion(s.store, Pc(s, p), a);
      VersionStep(s, p, a);
    }
  }

  lemma VersionStep(s: State, p: Pid, a: Action)
    requires Inv(s) && Enabled(s, p, a)
    ensures
      var m := Next(s, p, a);
      && (Quiet(s) && Quiet(m) ==> !Disturbs(Pc(s, p)) && !Disturbs(m.procs[p]))
      && (!Quiet(s) && Quiet(m) ==> Disturbs(Pc(s, p)) && !Disturbs(m.procs[p]))
  {
    var m := Next(s, p, a);
    assert forall p' :: p' in s.procs && p' != p ==> p' in m.procs && m.procs[p'] == s.procs[p'];
  }

  // ---------------------------------------------------------------- only a failed GC loses a text

  lemma LiveKept(st: Store, q: Proc, a: Action, k: HashKey)
    requires Effect(st, q, a).Some? && a != OfRewrite(GcInvalidate) && TableOk(st.table)
    requires q.Rewriting? ==> RewriteOk(st, q.w)
    requires k in st.table ==> Live(st.table, k)
    ensures k in Effect(st, q, a).value.store.table ==> Live(Effect(st, q, a).value.store.table, k)
  {
    match q
    case Idle =>
    case Storing(s) => if a.OfStore? { match a.store { case _ => } }
    case Rewriting(w) =>
      if a.rewrite.GcCopy? && a.rewrite.key == k {
        FetchOfImage(w.buf, st.table[k].loc, st.table[k].origin);
      }
      match a.rewrite { case _ => }
    case Viewing(r) => match a.read { case _ => }
  }

  /** In a run in which no GC fails, every entry that is in the table has its text. */
  lemma {:induction false} NoTextIsLost(s: State, steps: seq<(Pid, Action)>, s': State)
    requires Inv(s) && Runs(s, steps, s')
    requires forall i :: 0 <= i < |steps| ==> steps[i].1 != OfRewrite(GcInvalidate)
    requires forall k :: k in s.store.table ==> Live(s.store.table, k)
    ensures forall k :: k in s'.store.table ==> Live(s'.store.table, k)
    decreases |steps|
  {
    if steps == [] {
    } else {
      var (p, a) := steps[0];
      var m := Next(s, p, a);
      InvKept(s, p, a);
      forall k | k in m.store.table ensures Live(m.store.table, k) {
        LiveKept(s.store, Pc(s, p), a, k);
      }
      NoTextIsLost(m, steps[1..], s');
    }
  }
}
