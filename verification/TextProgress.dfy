/**
 What a process of the query-text protocol can always get done: from every state that the invariant allows, a process
 that finds the lock free can complete what it began by its own steps, and what it ends up with is what was asked for.
 */
module TextProgress {
  import opened Results
  import opened QueryTexts
  import opened TextProtocol
  import opened TextInvariant
  import opened TextHistory

  // ---------------------------------------------------------------- the steps of one process

  /** Actions taken one after the other. */
  datatype Acts = Done | Do(a: Action, rest: Acts)

  function Append(x: Acts, y: Acts): (r: Acts)
    ensures Smooth(r) <==> Smooth(x) && Smooth(y)
  {
    if x.Done? then y else Do(x.a, Append(x.rest, y))
  }

  /** Failures of the file system, and giving up. */
  predicate Fails(a: Action) {
    match a
    case OfStore(WriteFail) => true
    case OfStore(GiveUp) => true
    case OfRewrite(GcLoadFail) => true
    case OfRewrite(GcFail) => true
    case OfRead(ReloadFail) => true
    case _ => false
  }

  /** Nothing fails. */
  predicate Smooth(acts: Acts) {
    acts.Do? ==> !Fails(acts.a) && Smooth(acts.rest)
  }

  /** The process does not turn a lock it holds into the other kind. */
  predicate NoUpgrade(q: Proc, q': Proc) {
    && (LockMode(q).Shared? ==> !LockMode(q').Exclusive?)
    && (LockMode(q).Exclusive? ==> !LockMode(q').Shared?)
  }

  /** By these actions a process that is not disturbed gets from one store and program point to another. */
  ghost predicate Does(from: Outcome, acts: Acts, to: Outcome)
    decreases acts
  {
    match acts
    case Done => to == from
    case Do(a, rest) =>
      var o := Effect(from.store, from.pc, a);
      o.Some? && NoUpgrade(from.pc, o.value.pc) && Does(o.value, rest, to)
  }

  lemma First(from: Outcome, a: Action, next: Outcome, rest: Acts, to: Outcome)
    requires Effect(from.store, from.pc, a) == Some(next) && NoUpgrade(from.pc, next.pc) && Does(next, rest, to)
    ensures Does(from, Do(a, rest), to)
  {
  }

  lemma Last(from: Outcome, a: Action, to: Outcome)
    requires Effect(from.store, from.pc, a) == Some(to) && NoUpgrade(from.pc, to.pc)
    ensures Does(from, Do(a, Done), to)
  {
    assert Does(to, Done, to);
  }

  lemma {:induction false} DoesBoth(from: Outcome, x: Acts, mid: Outcome, y: Acts, to: Outcome)
    requires Does(from, x, mid) && Does(mid, y, to)
    ensures Does(from, Append(x, y), to)
    decreases x
  {
    if x.Done? {
    } else {
      DoesBoth(Effect(from.store, from.pc, x.a).value, x.rest, mid, y, to);
    }
  }

  function StepsOf(p: Pid, acts: Acts): seq<Step> {
    if acts.Done? then [] else [(p, acts.a)] + StepsOf(p, acts.rest)
  }

  /** No process other than `p` holds the lock. */
  ghost predicate Alone(s: State, p: Pid) {
    forall p' :: p' in s.procs && p' != p ==> LockMode(s.procs[p']).Free?
  }

  function Here(s: State, p: Pid): Outcome {
    Outcome(s.store, Pc(s, p))
  }

  lemma OwnStep(s: State, p: Pid, a: Action, o: Outcome)
    requires LocksOk(s) && Alone(s, p) && Effect(s.store, Pc(s, p), a) == Some(o) && NoUpgrade(Pc(s, p), o.pc)
    ensures Enabled(s, p, a) && LocksOk(Next(s, p, a)) && Alone(Next(s, p, a), p) && Here(Next(s, p, a), p) == o
  {
    LocksKept(s, p, o);
  }

  /** While no other process holds the lock, these are runs of the protocol. */
  lemma {:induction false} Undisturbed(s: State, p: Pid, acts: Acts, o: Outcome) returns (s': State)
    requires LocksOk(s) && Alone(s, p) && Does(Here(s, p), acts, o)
    ensures Runs(s, StepsOf(p, acts), s') && Here(s', p) == o && Alone(s', p)
    decreases acts
  {
    if acts.Done? {
      s' := s;
    } else {
      OwnStep(s, p, acts.a, Effect(s.store, Pc(s, p), acts.a).value);
      s' := Undisturbed(Next(s, p, acts.a), p, acts.rest, o);
      assert StepsOf(p, acts)[1..] == StepsOf(p, acts.rest);
    }
  }

  /** A process that is not rewriting, while no other holds the lock, finds the file quiet. */
  lemma AloneIsQuiet(s: State, p: Pid)
    requires Alone(s, p) && !Disturbs(Pc(s, p))
    ensures Quiet(s)
  {
  }

  /** A step to a point that needs the shared lock waits only for a holder of the exclusive lock. */
  lemma SharedLockIsShared(s: State, p: Pid, a: Action)
    requires s.exclusive.None? && Effect(s.store, Pc(s, p), a).Some?
    requires LockMode(Effect(s.store, Pc(s, p), a).value.pc).Shared?
    ensures Enabled(s, p, a) && Next(s, p, a).shared == s.shared + {p} && Next(s, p, a).exclusive.None?
  {
  }

  // ---------------------------------------------------------------- storing a text

  /** How the process gets on if nothing fails. */
  function StoreNext(st: Store, q: StorePc): StoreAction {
    match q
    case Writing(_, text, _, _, done, _) => if done < |Image(text)| then Write(|Image(text)| - done) else WriteDone
    case Stored(_, _, _, _, _) => Unshare
    case Between(_, _, _, _, _) => Promote
    case Promoted(_, _, _, gc, ok) => if ok && gc == st.gcCount then Recheck else Reserve
    case _ => Reserve
  }

  /** The number of steps left until the text is in place. */
  function StoreRank(q: StorePc): nat {
    match q
    case Missed(_, _) => 8
    case Writing(_, text, _, _, done, excl) => (if excl then 1 else 6) + if done < |Image(text)| then 1 else 0
    case Stored(_, _, _, _, _) => 5
    case Between(_, _, _, _, _) => 4
    case Promoted(_, _, _, _, _) => 3
    case _ => 0
  }

  lemma StoreNextOk(st: Store, q: StorePc)
    requires TextOf(q).Some? && !q.Ready? && (q.Writing? ==> q.done <= |Image(q.text)|)
    ensures
      var o := StoreStep(st, q, StoreNext(st, q));
      && o.Some? && NoUpgrade(Storing(q), o.value.pc)
      && o.value.store.table == st.table && o.value.pc.Storing? && StoreRank(o.value.pc.s) < StoreRank(q)
      && TextOf(o.value.pc.s) == TextOf(q) && KeyOf(o.value.pc.s) == KeyOf(q)
      && !Fails(OfStore(StoreNext(st, q)))
  {
  }

  lemma {:induction false} TextInPlace(st: Store, q: StorePc) returns (acts: Acts, o: Outcome)
    requires TextOf(q).Some? && (q.Writing? ==> q.done <= |Image(q.text)|)
    ensures Does(Outcome(st, Storing(q)), acts, o) && Smooth(acts)
    ensures o.pc.Storing? && o.pc.s.Ready? && o.pc.s.key == q.key && o.pc.s.text == q.text
    ensures o.store.table == st.table
    decreases StoreRank(q)
  {
    if q.Ready? {
      acts, o := Done, Outcome(st, Storing(q));
    } else {
      StoreNextOk(st, q);
      var a := StoreNext(st, q);
      var m := StoreStep(st, q, a).value;
      var rest;
      rest, o := TextInPlace(m.store, m.pc.s);
      acts := Do(OfStore(a), rest);
    }
  }

  lemma EntryInPlace(st: Store, q: StorePc, victims: set<HashKey>) returns (acts: Acts, o: Outcome)
    requires TextOf(q).Some? && (q.Writing? ==> q.done <= |Image(q.text)|)
    ensures Does(Outcome(st, Storing(q)), acts, o) && Smooth(acts)
    ensures o.pc.Idle? && EntryMade(st.table, victims, q.key, q.text, o.store.table)
  {
    var x, m := TextInPlace(st, q);
    var (off, st') := (m.pc.s.off, m.store.(table := Entered(m.store.table, victims, q.key, q.text, m.pc.s.off)));
    EnteredMakesEntry(st.table, victims, q.key, q.text, off);
    var (held, release) := (Outcome(st', Storing(Holding(true))), Do(OfStore(Release), Done));
    o := Outcome(st', Idle);
    assert Smooth(release);
    Last(held, OfStore(Release), o);
    First(m, OfStore(Publish(victims)), held, release, o);
    DoesBoth(Outcome(st, Storing(q)), x, m, Do(OfStore(Publish(victims)), release), o);
    acts := Append(x, Do(OfStore(Publish(victims)), release));
  }

  lemma WritingWithin(s: State, p: Pid, q: StorePc)
    requires Inv(s) && Pc(s, p) == Storing(q) && q.Writing?
    ensures q.done <= |Image(q.text)|
  {
    LockMeansQuiet(s, p);
    assert ProcOk(s.store, s.procs[p]);
  }

  /** The entry of the key has the text, and the text can be read from the file. */
  predicate HasText(st: Store, key: HashKey, text: Text) {
    key in st.table && ReadText(st.table[key].loc, st.file) == Some(text)
  }

  lemma MadeEntryHasText(s: State, steps: seq<Step>, s': State, p: Pid, victims: set<HashKey>, key: HashKey, text: Text)
    requires Inv(s) && Runs(s, steps, s') && Alone(s', p) && Pc(s', p).Idle?
    requires EntryMade(s.store.table, victims, key, text, s'.store.table) && (key !in s.store.table || key in victims)
    ensures HasText(s'.store, key, text)
  {
    InvReachable(s, steps, s');
    AloneIsQuiet(s', p);
    QuietText(s', key);
  }

  /**
   A process that is storing a text, at whatever point, can go on to make the entry and finish: it enters the key with
   its text unless the key is there, keeps all other entries that it does not evict, and the text can be read back.
   */
  lemma StoreCompletes(s: State, p: Pid, q: StorePc, victims: set<HashKey>) returns (acts: Acts, s': State)
    requires Inv(s) && Alone(s, p) && Pc(s, p) == Storing(q) && TextOf(q).Some?
    ensures Runs(s, StepsOf(p, acts), s') && Smooth(acts) && Pc(s', p).Idle?
    ensures EntryMade(s.store.table, victims, q.key, q.text, s'.store.table)
    ensures q.key !in s.store.table || q.key in victims ==> HasText(s'.store, q.key, q.text)
  {
    if q.Writing? {
      WritingWithin(s, p, q);
    }
    var o;
    acts, o := EntryInPlace(s.store, q, victims);
    s' := Undisturbed(s, p, acts, o);
    if q.key !in s.store.table || q.key in victims {
      MadeEntryHasText(s, StepsOf(p, acts), s', p, victims, q.key, q.text);
    }
  }

  /** What follows a lookup that finds nothing: the text is stored as it is, or as normalized without the lock. */
  lemma MissedIsStored(st: Store, key: HashKey, text: Text, norm: Option<Text>, victims: set<HashKey>)
    returns (acts: Acts, o: Outcome)
    ensures Does(Outcome(st, Storing(Missed(key, text))), acts, o) && Smooth(acts) && o.pc.Idle?
    ensures EntryMade(st.table, victims, key, if norm.Some? then norm.value else text, o.store.table)
  {
    if norm.None? {
      acts, o := EntryInPlace(st, Missed(key, text), victims);
    } else {
      var rest;
      rest, o := EntryInPlace(st, Missed(key, norm.value), victims);
      var relock := Do(OfStore(Relock(norm.value)), rest);
      assert Does(Outcome(st, Storing(Normalizing(key))), relock, o);
      acts := Do(OfStore(Unlock), relock);
    }
  }

  /**
   A process that is called with a statement can serve the call.  A key that has an entry is counted and nothing is
   stored; otherwise the entry is made, with the text as it is or as normalized.
   */
  lemma CallIsServed(s: State, p: Pid, key: HashKey, text: Text, norm: Option<Text>, victims: set<HashKey>)
    returns (acts: Acts, s': State)
    requires Inv(s) && Alone(s, p) && Pc(s, p).Idle?
    ensures acts.Do? && acts.a == OfStore(Lookup(key, text)) && Smooth(acts)
    ensures Runs(s, StepsOf(p, acts), s') && Pc(s', p).Idle?
    ensures key in s.store.table ==> s'.store == s.store
    ensures key !in s.store.table ==>
              var stored := if norm.Some? then norm.value else text;
              EntryMade(s.store.table, victims, key, stored, s'.store.table) && HasText(s'.store, key, stored)
  {
    var st, rest, o := s.store, Do(OfStore(Count), Done), Outcome(s.store, Idle);
    if key !in st.table {
      rest, o := MissedIsStored(st, key, text, norm, victims);
    } else {
      assert Does(Outcome(st, Storing(Counting)), rest, o);
    }
    acts := Do(OfStore(Lookup(key, text)), rest);
    s' := Undisturbed(s, p, acts, o);
    if key !in st.table {
      MadeEntryHasText(s, StepsOf(p, acts), s', p, victims, key, if norm.Some? then norm.value else text);
    }
  }

  /** A process that finds no entry may give up; then nothing has changed. */
  lemma CallIsGivenUp(st: Store, key: HashKey, text: Text)
    requires key !in st.table
    ensures Does(Outcome(st, Idle), Do(OfStore(Lookup(key, text)), Do(OfStore(GiveUp), Done)), Outcome(st, Idle))
  {
    assert Does(Outcome(st, Storing(Missed(key, text))), Do(OfStore(GiveUp), Done), Outcome(st, Idle));
  }

  /**
   A write that fails under the shared lock is made up for under the exclusive one; if that fails too, nothing is
   entered.
   */
  lemma FailedWrite(st: Store, q: StorePc, victims: set<HashKey>) returns (acts: Acts, o: Outcome)
    requires q.Writing?
    ensures Does(Outcome(st, Storing(q)), Do(OfStore(WriteFail), acts), o) && Smooth(acts) && o.pc.Idle?
    ensures if q.excl then o.store == st.(writers := st.writers - 1)
            else EntryMade(st.table, victims, q.key, q.text, o.store.table)
  {
    var st' := st.(writers := st.writers - 1);
    if q.excl {
      acts, o := Do(OfStore(Release), Done), Outcome(st', Idle);
      assert Does(Outcome(st', Storing(Holding(false))), acts, o);
    } else {
      acts, o := EntryInPlace(st', Stored(q.key, q.text, q.off, q.gc, false), victims);
    }
  }

  // ---------------------------------------------------------------- reading the texts

  function ReadNext(st: Store, q: ReadPc): ReadAction {
    match q
    case Sampled(_, nw, _) => if nw == 0 && st.file.Some? then Open else Skip
    case Opened(_, _, ino) => if ino == st.inode then Stat else StatStale(0)
    case Loading(_, _, ino, size, acc) =>
      if |acc| == size then ReadEnd
      else if |acc| < size <= |Bytes(st)| && ino == st.inode then Read(size - |acc|)
      else ReadFail
    case Loaded(_, _, _) => LockShared
    case Checking(_, _, _) => Validate
    case Reopening => ReloadStat
    case Reloading(size, acc) => if |acc| < size then Reload(size - |acc|) else ReloadEnd
    case Reading(_) => Finish
  }

  function ReadRank(q: ReadPc): nat {
    match q
    case Sampled(_, _, _) => 9
    case Opened(_, _, _) => 8
    case Loading(_, _, _, size, acc) => if |acc| == size then 6 else 7
    case Loaded(_, _, _) => 5
    case Checking(_, _, _) => 4
    case Reopening => 3
    case Reloading(size, acc) => if |acc| < size then 2 else 1
    case Reading(_) => 0
  }

  lemma ReadNextOk(st: Store, q: ReadPc)
    requires !q.Reading? && st.file.Some? && (q.Reloading? ==> |q.acc| <= q.size <= |Bytes(st)|)
    ensures
      var q' := ReadStep(st, q, ReadNext(st, q));
      && q'.Some? && NoUpgrade(Viewing(q), q'.value) && q'.value.Viewing? && ReadRank(q'.value.r) < ReadRank(q)
      && !ReadNext(st, q).ReloadFail? && q'.value.r != Reading(None)
  {
  }

  lemma {:induction false} ImageInPlace(st: Store, q: ReadPc) returns (acts: Acts, image: seq<Byte>)
    requires q != Reading(None) && st.file.Some? && (q.Reloading? ==> |q.acc| <= q.size <= |Bytes(st)|)
    ensures Does(Outcome(st, Viewing(q)), acts, Outcome(st, Viewing(Reading(Some(image))))) && Smooth(acts)
    decreases ReadRank(q)
  {
    if q.Reading? {
      acts, image := Done, q.image.value;
    } else {
      ReadNextOk(st, q);
      var rest;
      rest, image := ImageInPlace(st, ReadStep(st, q, ReadNext(st, q)).value.r);
      acts := Do(OfRead(ReadNext(st, q)), rest);
    }
  }

  lemma ReloadWithin(s: State, p: Pid, q: ReadPc)
    requires Inv(s) && Pc(s, p) == Viewing(q) && q.Reloading?
    ensures |q.acc| <= q.size <= |Bytes(s.store)|
  {
    LockMeansQuiet(s, p);
    assert ProcOk(s.store, s.procs[p]);
  }

  /** A reader, at whatever point, can go on to scan the table with an image that has the text of every entry. */
  lemma ReadCompletes(s: State, p: Pid, q: ReadPc) returns (acts: Acts, s': State, image: seq<Byte>)
    requires Inv(s) && Alone(s, p) && Pc(s, p) == Viewing(q) && q != Reading(None) && s.store.file.Some?
    ensures Runs(s, StepsOf(p, acts), s') && Smooth(acts)
    ensures s'.store == s.store && Pc(s', p) == Viewing(Reading(Some(image)))
    ensures forall k :: k in s.store.table ==> TrueText(s.store.table[k], image)
  {
    if q.Reloading? {
      ReloadWithin(s, p, q);
    }
    acts, image := ImageInPlace(s.store, q);
    s' := Undisturbed(s, p, acts, Outcome(s.store, Viewing(Reading(Some(image)))));
    InvReachable(s, StepsOf(p, acts), s');
    forall k | k in s.store.table ensures TrueText(s.store.table[k], image) {
      ReadingTrueText(s', p, image, k);
    }
  }

  function At(st: Store, q: ReadPc): Outcome {
    Outcome(st, Viewing(q))
  }

  /** The actions of a reader that is not disturbed: it reads the file of the given size once, without the lock. */
  function ReadActs(size: nat): Acts {
    Do(OfRead(Sample), Do(OfRead(Open), Do(OfRead(Stat), Do(OfRead(Read(size)), Do(OfRead(ReadEnd), CheckActs())))))
  }

  function CheckActs(): Acts {
    Do(OfRead(LockShared), Do(OfRead(Validate), Done))
  }

  /** A reader that begins while nobody is writing, and is not disturbed, accepts what it read without the lock. */
  lemma UndisturbedRead(st: Store)
    requires st.writers == 0 && st.file.Some?
    ensures Does(Outcome(st, Idle), ReadActs(|st.file.value|), At(st, Reading(st.file)))
  {
    var (ext, gc, ino, bytes) := (st.extent, st.gcCount, st.inode, st.file.value);
    var (n, to) := (|bytes|, At(st, Reading(st.file)));
    assert Does(At(st, Checking(ext, gc, Some(bytes))), Do(OfRead(Validate), Done), to);
    assert Does(At(st, Loaded(ext, gc, Some(bytes))), CheckActs(), to);
    assert Does(At(st, Loading(ext, gc, ino, n, bytes)), Do(OfRead(ReadEnd), CheckActs()), to);
    assert [] + bytes[0..n] == bytes;
    var read := Do(OfRead(Read(n)), Do(OfRead(ReadEnd), CheckActs()));
    assert Does(At(st, Loading(ext, gc, ino, n, [])), read, to);
    assert Does(At(st, Opened(ext, gc, ino)), Do(OfRead(Stat), read), to);
    assert Does(At(st, Sampled(ext, 0, gc)), Do(OfRead(Open), Do(OfRead(Stat), read)), to);
  }

  /** A reader whose file was unlinked under it may read anything instead. */
  lemma StaleRead(st: Store, q: ReadPc, bytes: seq<Byte>)
    requires q.Opened? && q.ino != st.inode
    ensures
      var acts := Do(OfRead(StatStale(|bytes|)), Do(OfRead(ReadStale(bytes)), Do(OfRead(ReadEnd), Done)));
      Does(At(st, q), acts, At(st, Loaded(q.ext, q.gc, Some(bytes))))
  {
    var (read, to) := (Do(OfRead(ReadEnd), Done), At(st, Loaded(q.ext, q.gc, Some(bytes))));
    assert Does(At(st, Loading(q.ext, q.gc, q.ino, |bytes|, bytes)), read, to);
    assert [] + bytes == bytes;
    assert Does(At(st, Loading(q.ext, q.gc, q.ino, |bytes|, [])), Do(OfRead(ReadStale(bytes)), read), to);
  }

  /** A reader does not load the file without the lock if that cannot work, and reloads it under the lock. */
  lemma SkippedRead(st: Store, q: ReadPc)
    requires q.Sampled? || q.Opened?
    ensures Does(At(st, q), Do(OfRead(Skip), CheckActs()), At(st, Reopening))
  {
    assert Does(At(st, Checking(q.ext, q.gc, None)), Do(OfRead(Validate), Done), At(st, Reopening));
    assert Does(At(st, Loaded(q.ext, q.gc, None)), CheckActs(), At(st, Reopening));
  }

  /** A reader that cannot load the file without the lock tries again under it; if that fails too, it has no texts. */
  lemma FailedReads(st: Store, q: ReadPc)
    requires q.Loading?
    ensures Does(At(st, q), Do(OfRead(ReadFail), CheckActs()), At(st, Reopening))
    ensures Does(At(st, Reopening), Do(OfRead(ReloadFail), Do(OfRead(Finish), Done)), Outcome(st, Idle))
  {
    assert Does(At(st, Checking(q.ext, q.gc, None)), Do(OfRead(Validate), Done), At(st, Reopening));
    assert Does(At(st, Loaded(q.ext, q.gc, None)), CheckActs(), At(st, Reopening));
    assert Does(At(st, Reading(None)), Do(OfRead(Finish), Done), Outcome(st, Idle));
  }

  // ---------------------------------------------------------------- collecting

  ghost function CollectNext(w: RewritePc): RewriteAction {
    match w
    case GcLoaded(_) => GcOpen
    case GcCopying(_, todo, out, pos) =>
      if todo != {} then var k :| k in todo; GcCopy(k) else if pos < |out| then GcFlush(|out| - pos) else GcClose
    case Rewritten(_) => SetExtent
    case _ => Bump
  }

  predicate Collects(w: RewritePc) {
    w.GcLoaded? || w.GcCopying? || w.Rewritten? || w.ExtentSet?
  }

  function CollectPhase(w: RewritePc): nat {
    if w.GcLoaded? then 3 else if w.GcCopying? then 2 else if w.Rewritten? then 1 else 0
  }

  function ToCopy(w: RewritePc): set<HashKey> {
    if w.GcCopying? then w.todo else {}
  }

  function ToFlush(w: RewritePc): nat {
    if w.GcCopying? && w.pos < |w.out| then |w.out| - w.pos else 0
  }

  /** The same entries, and those that had a text have it still. */
  ghost predicate KeepsEntries(t: Table, t': Table) {
    && t'.Keys == t.Keys
    && forall k :: k in t ==> t'[k].origin == t[k].origin && (t'[k].loc == DROPPED <==> t[k].loc == DROPPED)
  }

  lemma CopyKeepsEntries(st: Store, w: RewritePc, k: HashKey)
    requires TableOk(st.table) && w.GcCopying? && RewriteOk(st, w) && k in w.todo && k in st.table
    ensures
      var o := RewriteStep(st, w, GcCopy(k)).value;
      KeepsEntries(st.table, o.store.table)
  {
    if Live(st.table, k) {
      FetchOfImage(w.buf, st.table[k].loc, st.table[k].origin);
    }
  }

  lemma CollectNextOk(st: Store, w: RewritePc)
    requires TableOk(st.table) && RewriteOk(st, w) && Collects(w) && !w.ExtentSet?
    ensures
      var a := CollectNext(w);
      var o := RewriteStep(st, w, a);
      && o.Some? && o.value.pc.Rewriting? && Collects(o.value.pc.w) && !Fails(OfRewrite(a))
      && KeepsEntries(st.table, o.value.store.table) && o.value.store.gcCount == st.gcCount
  {
    var a := CollectNext(w);
    if a.GcCopy? {
      CopyKeepsEntries(st, w, a.key);
    }
  }

  /** A step of the collection leaves less to do. */
  ghost predicate Less(w: RewritePc, w': RewritePc) {
    (CollectPhase(w), |ToCopy(w)|, ToFlush(w) decreases to CollectPhase(w'), |ToCopy(w')|, ToFlush(w'))
  }

  lemma CopyingLess(w: RewritePc, k: HashKey, out: seq<Byte>)
    requires w.GcCopying? && k in w.todo
    ensures Less(w, w.(todo := w.todo - {k}, out := out))
  {
    assert |w.todo - {k}| < |w.todo|;
  }

  lemma CollectNextLess(st: Store, w: RewritePc)
    requires RewriteOk(st, w) && Collects(w) && !w.ExtentSet?
    requires RewriteStep(st, w, CollectNext(w)).Some? && RewriteStep(st, w, CollectNext(w)).value.pc.Rewriting?
    ensures Less(w, RewriteStep(st, w, CollectNext(w)).value.pc.w)
  {
    var a := CollectNext(w);
    if a.GcCopy? {
      CopyingLess(w, a.key, RewriteStep(st, w, a).value.pc.w.out);
    }
  }

  /** The collection gets from here to the end, and each entry keeps its text. */
  lemma {:induction false} FileRewritten(st: Store, w: RewritePc) returns (acts: Acts, o: Outcome)
    requires TableOk(st.table) && RewriteOk(st, w) && Collects(w)
    requires w.GcLoaded? ==> EntriesIn(st.table, Bytes(st), st.extent)
    ensures Does(Outcome(st, Rewriting(w)), acts, o) && Smooth(acts)
    ensures o.pc == Storing(Holding(false)) && o.store.gcCount == st.gcCount + 1
    ensures KeepsEntries(st.table, o.store.table)
    decreases CollectPhase(w), |ToCopy(w)|, ToFlush(w)
  {
    if w.ExtentSet? {
      acts, o := Do(OfRewrite(Bump), Done), Outcome(st.(gcCount := st.gcCount + 1), Storing(Holding(false)));
      assert Does(o, Done, o);
    } else {
      var a := CollectNext(w);
      CollectNextOk(st, w);
      CollectNextLess(st, w);
      RewriteStepOk(st, w, a);
      TableKept(st, Rewriting(w), OfRewrite(a));
      var m := RewriteStep(st, w, a).value;
      var rest;
      rest, o := FileRewritten(m.store, m.pc.w);
      acts := Do(OfRewrite(a), rest);
    }
  }

  /** Before the new file is closed it is cut to the length of the texts, or padded to it if it is shorter. */
  lemma Truncates(st: Store, w: RewritePc) returns (o: Outcome)
    requires w.GcCopying? && w.todo == {}
    ensures Does(Outcome(st, Rewriting(w)), Do(OfRewrite(GcTruncate), Done), o) && o.pc == Rewriting(w)
    ensures o.store == st.(file := o.store.file) && |Bytes(o.store)| == |w.out|
    ensures forall i :: 0 <= i < |w.out| ==> Bytes(o.store)[i] == if i < |Bytes(st)| then Bytes(st)[i] else 0
  {
    o := Outcome(st.(file := Some(Resize(Bytes(st), |w.out|))), Rewriting(w));
    Last(Outcome(st, Rewriting(w)), OfRewrite(GcTruncate), o);
  }

  lemma ReadableUnderLock(s: State, p: Pid, k: HashKey)
    requires Inv(s) && Pc(s, p) == Storing(Holding(false)) && k in s.store.table
    ensures TrueText(s.store.table[k], Bytes(s.store))
  {
    LockMeansQuiet(s, p);
    QuietText(s, k);
  }

  /**
   A process that may collect can do so while the file is there, and finishes with gc_count advanced and the same
   entries, each of which reads what it was created with if it had its text before.
   */
  lemma CollectionCompletes(s: State, p: Pid) returns (acts: Acts, s': State)
    requires Inv(s) && Alone(s, p) && Pc(s, p) == Storing(Holding(true)) && s.store.file.Some?
    ensures Runs(s, StepsOf(p, acts), s') && Smooth(acts)
    ensures Pc(s', p) == Storing(Holding(false)) && s'.store.gcCount == s.store.gcCount + 1
    ensures KeepsEntries(s.store.table, s'.store.table)
    ensures forall k :: k in s.store.table ==> TrueText(s'.store.table[k], Bytes(s'.store))
  {
    AloneIsQuiet(s, p);
    var rest, o := FileRewritten(s.store, GcLoaded(s.store.file.value));
    acts := Do(OfRewrite(GcLoad), rest);
    s' := Undisturbed(s, p, acts, o);
    InvReachable(s, StepsOf(p, acts), s');
    forall k | k in s'.store.table ensures TrueText(s'.store.table[k], Bytes(s'.store)) {
      ReadableUnderLock(s', p, k);
    }
  }

  // ---------------------------------------------------------------- a collection that fails

  /** The same entries, all without a text. */
  ghost predicate AllDropped(t: Table, t': Table) {
    t'.Keys == t.Keys && forall k :: k in t ==> t'[k].origin == t[k].origin && t'[k].loc == DROPPED
  }

  /** The end of a rewrite: the extent is recorded, and every version that anybody remembers is out of date. */
  function EndActs(): Acts {
    Do(OfRewrite(SetExtent), Do(OfRewrite(Bump), Done))
  }

  lemma RewriteEnds(st: Store, len: nat)
    ensures Does(Outcome(st, Rewriting(Rewritten(len))), EndActs(),
                 Outcome(st.(extent := len, gcCount := st.gcCount + 1), Storing(Holding(false))))
  {
    var st' := st.(extent := len);
    var to := Outcome(st'.(gcCount := st.gcCount + 1), Storing(Holding(false)));
    Last(Outcome(st', Rewriting(ExtentSet)), OfRewrite(Bump), to);
    First(Outcome(st, Rewriting(Rewritten(len))), OfRewrite(SetExtent), Outcome(st', Rewriting(ExtentSet)),
          Do(OfRewrite(Bump), Done), to);
  }

  function Unlinked(st: Store, ok: bool): Store {
    if ok then st.(file := None, inode := st.inode + 1) else st
  }

  function Recreated(st: Store, ok: bool): Store {
    if ok then st.(file := Some([])) else st
  }

  lemma UnlinkThen(st: Store, ok: bool, rest: Acts, to: Outcome)
    requires Does(Outcome(Unlinked(st, ok), Rewriting(GcUnlinked)), rest, to)
    ensures Does(Outcome(st, Rewriting(GcInvalidated)), Do(OfRewrite(GcUnlink(ok)), rest), to)
  {
  }

  lemma RecreateThen(st: Store, ok: bool, rest: Acts, to: Outcome)
    requires Does(Outcome(Recreated(st, ok), Rewriting(Rewritten(0))), rest, to)
    ensures Does(Outcome(st, Rewriting(GcUnlinked)), Do(OfRewrite(GcRecreate(ok)), rest), to)
  {
  }

  /** What becomes of the store after a failed collection. */
  function Replaced(st: Store, unlinked: bool, recreated: bool): Store {
    Recreated(Unlinked(st, unlinked), recreated).(extent := 0, gcCount := st.gcCount + 1)
  }

  function ReplaceActs(unlinked: bool, recreated: bool): Acts {
    Do(OfRewrite(GcUnlink(unlinked)), Do(OfRewrite(GcRecreate(recreated)), EndActs()))
  }

  lemma FileIsReplaced(st: Store, unlinked: bool, recreated: bool)
    ensures Does(Outcome(st, Rewriting(GcInvalidated)), ReplaceActs(unlinked, recreated),
                 Outcome(Replaced(st, unlinked, recreated), Storing(Holding(false))))
  {
    var to := Outcome(Replaced(st, unlinked, recreated), Storing(Holding(false)));
    RewriteEnds(Recreated(Unlinked(st, unlinked), recreated), 0);
    RecreateThen(Unlinked(st, unlinked), recreated, EndActs(), to);
    UnlinkThen(st, unlinked, Do(OfRewrite(GcRecreate(recreated)), EndActs()), to);
  }

  /** Unlinking the file and creating it anew may fail; every entry has lost its text in any case. */
  function DropActs(unlinked: bool, recreated: bool): Acts {
    Do(OfRewrite(GcInvalidate), ReplaceActs(unlinked, recreated))
  }

  function DroppedStore(st: Store, unlinked: bool, recreated: bool): Store {
    Replaced(st.(table := Drop(st.table)), unlinked, recreated)
  }

  lemma TextsAreDropped(st: Store, at: nat, unlinked: bool, recreated: bool)
    ensures
      var st' := DroppedStore(st, unlinked, recreated);
      Does(Outcome(st, Rewriting(GcFailed([], at))), DropActs(unlinked, recreated),
           Outcome(st', Storing(Holding(false))))
  {
    var dropped := st.(table := Drop(st.table));
    FileIsReplaced(dropped, unlinked, recreated);
    First(Outcome(st, Rewriting(GcFailed([], at))), OfRewrite(GcInvalidate), Outcome(dropped, Rewriting(GcInvalidated)),
          ReplaceActs(unlinked, recreated), Outcome(DroppedStore(st, unlinked, recreated), Storing(Holding(false))));
  }

  /** After a failure every entry is without a text, and the file starts afresh as far as the file system lets it. */
  ghost predicate StartsAfresh(st: Store, file: Option<seq<Byte>>, unlinked: bool, recreated: bool, st': Store) {
    && AllDropped(st.table, st'.table)
    && st'.file == (if recreated then Some([]) else if unlinked then None else file)
    && st'.inode == st.inode + (if unlinked then 1 else 0)
    && st'.extent == 0 && st'.gcCount == st.gcCount + 1 && st'.writers == st.writers
  }

  lemma FlushesLate(st: Store, rest: seq<Byte>, at: nat, st': Store, acts: Acts, o: Outcome)
    requires rest != [] && st' == st.(file := Some(PWrite(Bytes(st), at, rest)))
    requires Does(Outcome(st', Rewriting(GcFailed([], at + |rest|))), acts, o)
    ensures Does(Outcome(st, Rewriting(GcFailed(rest, at))), Do(OfRewrite(GcLateFlush(|rest|)), acts), o)
  {
    assert rest[..|rest|] == rest && rest[|rest|..] == [];
    First(Outcome(st, Rewriting(GcFailed(rest, at))), OfRewrite(GcLateFlush(|rest|)),
          Outcome(st', Rewriting(GcFailed([], at + |rest|))), acts, o);
  }

  lemma AfterFailure(st: Store, rest: seq<Byte>, at: nat, unlinked: bool, recreated: bool)
    returns (acts: Acts, o: Outcome)
    ensures Does(Outcome(st, Rewriting(GcFailed(rest, at))), acts, o) && o.pc == Storing(Holding(false))
    ensures
      var file := if rest == [] then st.file else Some(PWrite(Bytes(st), at, rest));
      StartsAfresh(st, file, unlinked, recreated, o.store)
  {
    var st' := if rest == [] then st else st.(file := Some(PWrite(Bytes(st), at, rest)));
    acts := DropActs(unlinked, recreated);
    o := Outcome(DroppedStore(st', unlinked, recreated), Storing(Holding(false)));
    TextsAreDropped(st', at + |rest|, unlinked, recreated);
    if rest != [] {
      FlushesLate(st, rest, at, st', acts, o);
      acts := Do(OfRewrite(GcLateFlush(|rest|)), acts);
    }
  }

  /** A collection can fail whenever it has loaded the file; what it had buffered may still reach the file. */
  lemma CollectionFails(st: Store, w: RewritePc, unlinked: bool, recreated: bool) returns (acts: Acts, o: Outcome)
    requires w.GcLoaded? || (w.GcCopying? && w.pos <= |w.out|)
    ensures acts.Do? && acts.a == OfRewrite(GcFail) && Does(Outcome(st, Rewriting(w)), acts, o)
    ensures o.pc == Storing(Holding(false))
    ensures
      var buffered := w.GcCopying? && w.pos < |w.out|;
      var file := if buffered then Some(PWrite(Bytes(st), w.pos, w.out[w.pos..])) else st.file;
      StartsAfresh(st, file, unlinked, recreated, o.store)
  {
    var (rest, at) := if w.GcLoaded? then ([], 0) else (w.out[w.pos..], w.pos);
    acts, o := AfterFailure(st, rest, at, unlinked, recreated);
    First(Outcome(st, Rewriting(w)), OfRewrite(GcFail), Outcome(st, Rewriting(GcFailed(rest, at))), acts, o);
    acts := Do(OfRewrite(GcFail), acts);
  }

  /** So can loading the file. */
  lemma LoadFails(st: Store, unlinked: bool, recreated: bool) returns (acts: Acts, o: Outcome)
    ensures acts.Do? && acts.a == OfRewrite(GcLoadFail) && Does(Outcome(st, Storing(Holding(true))), acts, o)
    ensures o.pc == Storing(Holding(false)) && StartsAfresh(st, st.file, unlinked, recreated, o.store)
  {
    acts, o := AfterFailure(st, [], 0, unlinked, recreated);
    First(Outcome(st, Storing(Holding(true))), OfRewrite(GcLoadFail), Outcome(st, Rewriting(GcFailed([], 0))), acts, o);
    acts := Do(OfRewrite(GcLoadFail), acts);
  }

  // ---------------------------------------------------------------- resetting

  lemma ResetEmpties(st: Store, truncated: bool) returns (acts: Acts, o: Outcome)
    ensures Does(Outcome(st, Rewriting(ResetEmptied)), acts, o) && o.pc.Idle?
    ensures o.store == st.(file := if truncated then Some([]) else st.file, extent := 0, gcCount := st.gcCount + 1)
  {
    var st1 := if truncated then st.(file := Some([])) else st;
    var st2 := st1.(extent := 0, gcCount := st.gcCount + 1);
    var (from, held, release) := (Outcome(st1, Rewriting(Rewritten(0))), Outcome(st2, Storing(Holding(false))),
                                  Do(OfStore(Release), Done));
    o := Outcome(st2, Idle);
    RewriteEnds(st1, 0);
    Last(held, OfStore(Release), o);
    DoesBoth(from, EndActs(), held, release, o);
    acts := Do(OfRewrite(ResetOpen(truncated)), Append(EndActs(), release));
    First(Outcome(st, Rewriting(ResetEmptied)), acts.a, from, acts.rest, o);
  }

  /** What a reset does: the file starts afresh if no entry is left, unless it cannot be truncated. */
  lemma ResetCompletes(st: Store, keys: set<HashKey>, truncated: bool) returns (acts: Acts, o: Outcome)
    ensures acts.Do? && acts.a == OfRewrite(BeginReset) && Does(Outcome(st, Idle), acts, o) && o.pc.Idle?
    ensures o.store.table == st.table - keys
    ensures !(st.table.Keys <= keys) ==> o.store == st.(table := st.table - keys)
    ensures st.table.Keys <= keys ==>
              && o.store.file == (if truncated then Some([]) else st.file)
              && o.store.extent == 0 && o.store.gcCount == st.gcCount + 1
  {
    var st' := st.(table := st.table - keys);
    var (resetting, rest, next) := (Outcome(st, Rewriting(Resetting)), Do(OfStore(Release), Done),
                                    Outcome(st', Storing(Holding(false))));
    o := Outcome(st', Idle);
    if st.table.Keys <= keys {
      next := Outcome(st', Rewriting(ResetEmptied));
      rest, o := ResetEmpties(st', truncated);
    } else {
      Last(next, OfStore(Release), o);
    }
    First(resetting, OfRewrite(Remove(keys)), next, rest, o);
    acts := Do(OfRewrite(BeginReset), Do(OfRewrite(Remove(keys)), rest));
    First(Outcome(st, Idle), acts.a, resetting, acts.rest, o);
  }
}
