/**
 The locking protocol around the query-text file of edb_stat_statements, as a step system.

 Any number of processes interleave.  Each is storing a new text (pgss_store), garbage-collecting
 or resetting the file under the exclusive lock, or reading all texts (edb_stat_statements).
 One step is one atomic action on what other processes can see: the file, the spinlock-protected
 counters, or the lock.  The hashtable itself is only visible under the lock.
 */
module TextProtocol {
  import opened Results
  import opened QueryTexts

  type Pid = nat

  /** A hashtable entry.  `origin` is history: the text the entry was created with. */
  datatype Entry = Entry(loc: Loc, origin: Text)

  type Table = map<HashKey, Entry>

  /** What the processes share, besides the lock. */
  datatype Store = Store(
    table: Table,
    file: Option<seq<Byte>>,   // absent after an unlink whose re-creation failed
    inode: nat,                // changes when the path is unlinked
    extent: nat,
    writers: int,
    gcCount: nat)

  /** pgss_store: where the process is, and its local variables. */
  datatype StorePc =
    | Counting                                                   // shared lock, entry found
    | Missed(key: HashKey, text: Text)                           // shared lock, no entry
    | Normalizing(key: HashKey)                                  // no lock
    | Writing(key: HashKey, text: Text, off: nat, gc: nat, done: nat, excl: bool)  // inside qtext_store
    | Stored(key: HashKey, text: Text, off: nat, gc: nat, ok: bool)                // shared lock
    | Between(key: HashKey, text: Text, off: nat, gc: nat, ok: bool)               // no lock
    | Promoted(key: HashKey, text: Text, off: nat, gc: nat, ok: bool)              // exclusive lock
    | Ready(key: HashKey, text: Text, off: nat)                  // exclusive lock, the text is in place
    | Holding(mayGc: bool)                                       // exclusive lock, at most GC is left to do

  /** gc_qtexts and entry_reset, all under the exclusive lock. */
  datatype RewritePc =
    | GcLoaded(buf: seq<Byte>)
    | GcCopying(buf: seq<Byte>, todo: set<HashKey>, out: seq<Byte>, pos: nat)  // `pos` bytes of `out` were written
    | GcFailed(rest: seq<Byte>, at: nat)   // closing the file may still flush `rest`, from position `at`
    | GcInvalidated
    | GcUnlinked
    | Resetting
    | ResetEmptied
    | Rewritten(len: nat)      // the file is final; next the extent is stored
    | ExtentSet                // next gc_count is advanced

  /** edb_stat_statements_internal. */
  datatype ReadPc =
    | Sampled(ext: nat, nw: int, gc: nat)
    | Opened(ext: nat, gc: nat, ino: nat)
    | Loading(ext: nat, gc: nat, ino: nat, size: nat, acc: seq<Byte>)
    | Loaded(ext: nat, gc: nat, image: Option<seq<Byte>>)
    | Checking(ext: nat, gc: nat, image: Option<seq<Byte>>)  // shared lock
    | Reopening                                              // shared lock
    | Reloading(size: nat, acc: seq<Byte>)                   // shared lock
    | Reading(image: Option<seq<Byte>>)                      // shared lock

  datatype Proc = Idle | Storing(s: StorePc) | Rewriting(w: RewritePc) | Viewing(r: ReadPc)

  datatype StoreAction =
    | Lookup(key: HashKey, text: Text)
    | Count
    | GiveUp
    | Unlock
    | Relock(text: Text)
    | Reserve
    | Write(n: nat)
    | WriteDone
    | WriteFail
    | Unshare
    | Promote
    | Recheck
    | Publish(victims: set<HashKey>)
    | Release

  datatype RewriteAction =
    | GcLoad
    | GcLoadFail
    | GcOpen
    | GcCopy(key: HashKey)
    | GcFlush(n: nat)
    | GcTruncate
    | GcClose
    | GcFail
    | GcLateFlush(n: nat)
    | GcInvalidate
    | GcUnlink(ok: bool)
    | GcRecreate(ok: bool)
    | BeginReset
    | Remove(keys: set<HashKey>)
    | ResetOpen(ok: bool)
    | SetExtent
    | Bump

  datatype ReadAction =
    | Sample
    | Open
    | Stat
    | StatStale(size: nat)
    | Skip
    | Read(n: nat)
    | ReadStale(bytes: seq<Byte>)
    | ReadFail
    | ReadEnd
    | LockShared
    | Validate
    | ReloadStat
    | Reload(n: nat)
    | ReloadFail
    | ReloadEnd
    | Finish

  datatype Action = OfStore(store: StoreAction) | OfRewrite(rewrite: RewriteAction) | OfRead(read: ReadAction)

  /** The lock a program point holds. */
  datatype Mode = Free | Shared | Exclusive

  datatype State = State(
    store: Store,
    shared: set<Pid>,          // holders of the shared lock
    exclusive: Option<Pid>,    // holder of the exclusive lock
    procs: map<Pid, Proc>)

  function Bytes(st: Store): seq<Byte> {
    if st.file.Some? then st.file.value else []
  }

  function Pc(s: State, p: Pid): Proc {
    if p in s.procs then s.procs[p] else Idle
  }

  function StoreMode(q: StorePc): Mode {
    match q
    case Counting => Shared
    case Missed(_, _) => Shared
    case Normalizing(_) => Free
    case Writing(_, _, _, _, _, excl) => if excl then Exclusive else Shared
    case Stored(_, _, _, _, _) => Shared
    case Between(_, _, _, _, _) => Free
    case Promoted(_, _, _, _, _) => Exclusive
    case Ready(_, _, _) => Exclusive
    case Holding(_) => Exclusive
  }

  function ReadMode(q: ReadPc): Mode {
    if q.Sampled? || q.Opened? || q.Loading? || q.Loaded? then Free else Shared
  }

  function LockMode(q: Proc): Mode {
    match q
    case Idle => Free
    case Storing(s) => StoreMode(s)
    case Rewriting(_) => Exclusive
    case Viewing(r) => ReadMode(r)
  }

  // ---------------------------------------------------------------- the steps

  /** A step of one process: the shared store and program point it leads to.  None where it cannot happen. */
  datatype Outcome = Outcome(store: Store, pc: Proc)

  /** The process must write its text (again): it never did, or the file was rewritten since. */
  predicate MustStore(st: Store, q: StorePc) {
    q.Missed? || (q.Promoted? && (!q.ok || q.gc != st.gcCount))
  }

  /** entry_alloc on the location part: evict, then enter the key unless it is there already. */
  function Entered(table: Table, victims: set<HashKey>, key: HashKey, text: Text, off: nat): Table {
    var left := table - victims;
    if key in left then left else left[key := Entry(At(off, text), text)]
  }

  function StoreStep(st: Store, q: StorePc, a: StoreAction): Option<Outcome> {
    match a
    case Lookup(_, _) => None
    case Count => if q.Counting? then Some(Outcome(st, Idle)) else None
    case GiveUp => if q.Missed? then Some(Outcome(st, Idle)) else None  // an unrecognized statement, or another one
    case Unlock => if q.Missed? then Some(Outcome(st, Storing(Normalizing(q.key)))) else None
    case Relock(text) => if q.Normalizing? then Some(Outcome(st, Storing(Missed(q.key, text)))) else None
    case Reserve =>
      if MustStore(st, q) then
        Some(Outcome(st.(extent := st.extent + |Image(q.text)|, writers := st.writers + 1),
                     Storing(Writing(q.key, q.text, st.extent, st.gcCount, 0, q.Promoted?))))
      else None
    case Write(n) =>
      if q.Writing? && q.done + n <= |Image(q.text)| then
        Some(Outcome(st.(file := Some(PWrite(Bytes(st), q.off + q.done, Image(q.text)[q.done..q.done + n]))),
                     Storing(q.(done := q.done + n))))
      else None
    case WriteDone =>
      if q.Writing? && q.done == |Image(q.text)| then
        Some(Outcome(st.(writers := st.writers - 1),
                     Storing(if q.excl then Ready(q.key, q.text, q.off) else Stored(q.key, q.text, q.off, q.gc, true))))
      else None
    case WriteFail =>
      if q.Writing? then
        Some(Outcome(st.(writers := st.writers - 1),
                     Storing(if q.excl then Holding(false) else Stored(q.key, q.text, q.off, q.gc, false))))
      else None
    case Unshare => if q.Stored? then Some(Outcome(st, Storing(Between(q.key, q.text, q.off, q.gc, q.ok)))) else None
    case Promote => if q.Between? then Some(Outcome(st, Storing(Promoted(q.key, q.text, q.off, q.gc, q.ok)))) else None
    case Recheck =>
      if q.Promoted? && !MustStore(st, q) then Some(Outcome(st, Storing(Ready(q.key, q.text, q.off)))) else None
    case Publish(victims) =>
      if q.Ready? then
        Some(Outcome(st.(table := Entered(st.table, victims, q.key, q.text, q.off)), Storing(Holding(true))))
      else None
    case Release => if q.Holding? then Some(Outcome(st, Idle)) else None
  }

  function Drop(table: Table): Table {
    map k | k in table :: table[k].(loc := DROPPED)
  }

  function Moved(e: Entry, off: nat): Entry {
    e.(loc := e.loc.(offset := off))
  }

  function RewriteStep(st: Store, q: RewritePc, a: RewriteAction): Option<Outcome> {
    match a
    case GcLoad => None
    case GcLoadFail => None
    case BeginReset => None
    case GcOpen =>
      if q.GcLoaded? then Some(Outcome(st.(file := Some([])), Rewriting(GcCopying(q.buf, st.table.Keys, [], 0))))
      else None
    case GcCopy(k) =>
      if q.GcCopying? && k in q.todo && k in st.table then
        var text := Fetch(st.table[k].loc, Some(q.buf));
        if text.None? then
          Some(Outcome(st.(table := st.table[k := st.table[k].(loc := DROPPED)]), Rewriting(q.(todo := q.todo - {k}))))
        else
          Some(Outcome(st.(table := st.table[k := Moved(st.table[k], |q.out|)]),
                       Rewriting(q.(todo := q.todo - {k}, out := q.out + text.value + [0]))))
      else None
    case GcFlush(n) =>
      if q.GcCopying? && q.pos + n <= |q.out| then
        Some(Outcome(st.(file := Some(PWrite(Bytes(st), q.pos, q.out[q.pos..q.pos + n]))),
                     Rewriting(q.(pos := q.pos + n))))
      else None
    case GcTruncate =>
      if q.GcCopying? && q.todo == {} then Some(Outcome(st.(file := Some(Resize(Bytes(st), |q.out|))), Rewriting(q)))
      else None
    case GcClose =>
      if q.GcCopying? && q.todo == {} && q.pos == |q.out| then Some(Outcome(st, Rewriting(Rewritten(|q.out|))))
      else None
    case GcFail =>
      if q.GcLoaded? then Some(Outcome(st, Rewriting(GcFailed([], 0))))
      else if q.GcCopying? && q.pos <= |q.out| then Some(Outcome(st, Rewriting(GcFailed(q.out[q.pos..], q.pos))))
      else None
    case GcLateFlush(n) =>
      if q.GcFailed? && 0 < n <= |q.rest| then
        Some(Outcome(st.(file := Some(PWrite(Bytes(st), q.at, q.rest[..n]))),
                     Rewriting(GcFailed(q.rest[n..], q.at + n))))
      else None
    case GcInvalidate =>
      if q.GcFailed? then Some(Outcome(st.(table := Drop(st.table)), Rewriting(GcInvalidated)))
      else None
    case GcUnlink(ok) =>
      if q.GcInvalidated? then
        Some(Outcome(if ok then st.(file := None, inode := st.inode + 1) else st, Rewriting(GcUnlinked)))
      else None
    case GcRecreate(ok) =>
      if q.GcUnlinked? then Some(Outcome(if ok then st.(file := Some([])) else st, Rewriting(Rewritten(0)))) else None
    case Remove(keys) =>
      if q.Resetting? then
        Some(Outcome(st.(table := st.table - keys),
                     if st.table.Keys <= keys then Rewriting(ResetEmptied) else Storing(Holding(false))))
      else None
    case ResetOpen(ok) =>
      if q.ResetEmptied? then Some(Outcome(if ok then st.(file := Some([])) else st, Rewriting(Rewritten(0)))) else None
    case SetExtent => if q.Rewritten? then Some(Outcome(st.(extent := q.len), Rewriting(ExtentSet))) else None
    case Bump => if q.ExtentSet? then Some(Outcome(st.(gcCount := st.gcCount + 1), Storing(Holding(false)))) else None
  }

  function ReadStep(st: Store, q: ReadPc, a: ReadAction): Option<Proc> {
    match a
    case Sample => None
    case Open =>
      if q.Sampled? && q.nw == 0 && st.file.Some? then Some(Viewing(Opened(q.ext, q.gc, st.inode))) else None
    case Stat =>
      if q.Opened? && q.ino == st.inode then Some(Viewing(Loading(q.ext, q.gc, q.ino, |Bytes(st)|, []))) else None
    case StatStale(size) =>  // the file was unlinked since it was opened: nothing is known about it
      if q.Opened? && q.ino != st.inode then Some(Viewing(Loading(q.ext, q.gc, q.ino, size, []))) else None
    case Skip => if q.Sampled? || q.Opened? then Some(Viewing(Loaded(q.ext, q.gc, None))) else None
    case Read(n) =>
      if q.Loading? && q.ino == st.inode && |q.acc| + n <= q.size && |q.acc| + n <= |Bytes(st)| then
        Some(Viewing(Loading(q.ext, q.gc, q.ino, q.size, q.acc + Bytes(st)[|q.acc|..|q.acc| + n])))
      else None
    case ReadStale(bytes) =>
      if q.Loading? && q.ino != st.inode && |q.acc| + |bytes| <= q.size then
        Some(Viewing(Loading(q.ext, q.gc, q.ino, q.size, q.acc + bytes)))
      else None
    case ReadFail => if q.Loading? then Some(Viewing(Loaded(q.ext, q.gc, None))) else None
    case ReadEnd => if q.Loading? && |q.acc| == q.size then Some(Viewing(Loaded(q.ext, q.gc, Some(q.acc)))) else None
    case LockShared => if q.Loaded? then Some(Viewing(Checking(q.ext, q.gc, q.image))) else None
    case Validate =>
      if !q.Checking? then None
      else if q.image.None? || st.extent != q.ext || st.gcCount != q.gc then Some(Viewing(Reopening))
      else Some(Viewing(Reading(q.image)))
    case ReloadStat => if q.Reopening? && st.file.Some? then Some(Viewing(Reloading(|st.file.value|, []))) else None
    case Reload(n) =>
      if q.Reloading? && |q.acc| + n <= q.size && |q.acc| + n <= |Bytes(st)| then
        Some(Viewing(Reloading(q.size, q.acc + Bytes(st)[|q.acc|..|q.acc| + n])))
      else None
    case ReloadFail => if q.Reopening? || q.Reloading? then Some(Viewing(Reading(None))) else None
    case ReloadEnd => if q.Reloading? && |q.acc| == q.size then Some(Viewing(Reading(Some(q.acc)))) else None
    case Finish => if q.Reading? then Some(Idle) else None
  }

  /** The steps that begin an activity. */
  function Begin(st: Store, q: Proc, a: Action): Option<Outcome> {
    match a
    case OfStore(Lookup(key, text)) =>
      if q.Idle? then Some(Outcome(st, Storing(if key in st.table then Counting else Missed(key, text)))) else None
    case OfRewrite(GcLoad) =>
      if q == Storing(Holding(true)) && st.file.Some? then Some(Outcome(st, Rewriting(GcLoaded(st.file.value))))
      else None
    case OfRewrite(GcLoadFail) =>
      if q == Storing(Holding(true)) then Some(Outcome(st, Rewriting(GcFailed([], 0))))
      else None
    case OfRewrite(BeginReset) => if q.Idle? then Some(Outcome(st, Rewriting(Resetting))) else None
    case OfRead(Sample) =>
      if q.Idle? then Some(Outcome(st, Viewing(Sampled(st.extent, st.writers, st.gcCount)))) else None
    case _ => None
  }

  function Effect(st: Store, q: Proc, a: Action): Option<Outcome> {
    match q
    case Storing(s) => if a.OfStore? then StoreStep(st, s, a.store) else Begin(st, q, a)
    case Rewriting(w) => if a.OfRewrite? then RewriteStep(st, w, a.rewrite) else None
    case Viewing(r) =>
      if a.OfRead? then
        var q' := ReadStep(st, r, a.read);
        if q'.None? then None else Some(Outcome(st, q'.value))
      else None
    case Idle => Begin(st, q, a)
  }

  /** A step to a program point that holds a lock waits until the lock can be had. */
  predicate LockFree(s: State, p: Pid, m: Mode) {
    match m
    case Free => true
    case Shared => p in s.shared || s.exclusive.None?
    case Exclusive => s.exclusive == Some(p) || (s.exclusive.None? && s.shared == {})
  }

  predicate Enabled(s: State, p: Pid, a: Action) {
    var o := Effect(s.store, Pc(s, p), a);
    o.Some? && LockFree(s, p, LockMode(o.value.pc))
  }

  function Move(s: State, p: Pid, o: Outcome): State {
    var m := LockMode(o.pc);
    State(
      o.store,
      if m.Shared? then s.shared + {p} else s.shared - {p},
      if m.Exclusive? then Some(p) else if s.exclusive == Some(p) then None else s.exclusive,
      s.procs[p := o.pc])
  }

  function Next(s: State, p: Pid, a: Action): State
    requires Enabled(s, p, a)
  {
    Move(s, p, Effect(s.store, Pc(s, p), a).value)
  }

  /** `s'` is reached from `s` by the given interleaving. */
  ghost predicate Runs(s: State, steps: seq<(Pid, Action)>, s': State)
    decreases |steps|
  {
    if steps == [] then s == s'
    else Enabled(s, steps[0].0, steps[0].1) && Runs(Next(s, steps[0].0, steps[0].1), steps[1..], s')
  }
}
