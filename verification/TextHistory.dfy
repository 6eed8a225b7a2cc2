/**
 What a process of the query-text protocol ends up with, in terms of the steps it took: the entry that a storing
 process makes is for the statement it looked up, and a reader gets every text unless its own reload failed.
 */
module TextHistory {
  import opened Results
  import opened QueryTexts
  import opened TextProtocol
  import opened TextInvariant

  type Step = (Pid, Action)

  // ---------------------------------------------------------------- who holds the lock

  /** The lock calls of the module: where a process takes the lock, takes it in the other mode, or lets it go. */
  function LockCall(a: Action, held: Mode): Mode {
    match a
    case OfStore(Lookup(_, _)) => Shared
    case OfStore(Unlock) => Free
    case OfStore(Relock(_)) => Shared
    case OfStore(Unshare) => Free
    case OfStore(Promote) => Exclusive
    case OfStore(Count) => Free
    case OfStore(GiveUp) => Free
    case OfStore(Release) => Free
    case OfRewrite(BeginReset) => Exclusive
    case OfRead(LockShared) => Shared
    case OfRead(Finish) => Free
    case _ => held
  }

  function Held(p: Pid, held: Mode, steps: seq<Step>): Mode
    decreases |steps|
  {
    if steps == [] then held
    else Held(p, if steps[0].0 == p then LockCall(steps[0].1, held) else held, steps[1..])
  }

  lemma LockCallOk(st: Store, q: Proc, a: Action)
    requires Effect(st, q, a).Some?
    ensures LockMode(Effect(st, q, a).value.pc) == LockCall(a, LockMode(q))
  {
    match q
    case Idle =>
    case Storing(s) => if a.OfStore? { match a.store { case _ => } }
    case Rewriting(w) => match a.rewrite { case _ => }
    case Viewing(r) => match a.read { case _ => }
  }

  lemma {:induction false} RunHolds(s: State, steps: seq<Step>, s': State, p: Pid)
    requires Runs(s, steps, s')
    ensures LockMode(Pc(s', p)) == Held(p, LockMode(Pc(s, p)), steps)
    decreases |steps|
  {
    if steps == [] {
    } else {
      LockCallOk(s.store, Pc(s, steps[0].0), steps[0].1);
      RunHolds(Next(s, steps[0].0, steps[0].1), steps[1..], s', p);
    }
  }

  /** In every run, a process holds the lock in the mode of its last lock call; whoever holds it alone is alone. */
  lemma LocksFollowCalls(s0: State, steps: seq<Step>, s: State, p: Pid)
    requires Init(s0) && Runs(s0, steps, s)
    ensures p in s.shared <==> Held(p, Free, steps) == Shared
    ensures s.exclusive == Some(p) <==> Held(p, Free, steps) == Exclusive
    ensures s.exclusive.Some? ==> s.shared == {}
  {
    InitInv(s0);
    InvReachable(s0, steps, s);
    RunHolds(s0, steps, s, p);
  }

  // ---------------------------------------------------------------- what a storing process was asked for

  /** The statement a process was last called with.  `unbroken`: it has not released the lock since. */
  datatype Request = Request(key: HashKey, text: Text, unbroken: bool)

  /** Normalizing a text replaces it, and is done without the lock. */
  function AskedNext(p: Pid, r: Option<Request>, step: Step): Option<Request> {
    if step.0 != p then r else
      match step.1
      case OfStore(Lookup(key, text)) => Some(Request(key, text, true))
      case OfStore(Unlock) => if r.Some? then Some(r.value.(unbroken := false)) else r
      case OfStore(Relock(text)) => if r.Some? then Some(r.value.(text := text)) else r
      case _ => r
  }

  function Asked(p: Pid, r: Option<Request>, steps: seq<Step>): Option<Request>
    decreases |steps|
  {
    if steps == [] then r else Asked(p, AskedNext(p, r, steps[0]), steps[1..])
  }

  /** The key a storing process works on. */
  function KeyOf(q: StorePc): Option<HashKey> {
    if q.Counting? || q.Holding? then None else Some(q.key)
  }

  /** The text a storing process works on. */
  function TextOf(q: StorePc): Option<Text> {
    if q.Counting? || q.Holding? || q.Normalizing? then None else Some(q.text)
  }

  /** A storing process works on what it was asked for, and has looked the key up rightly. */
  ghost predicate Serves(t: Table, q: StorePc, r: Option<Request>) {
    && (!q.Holding? ==> r.Some?)
    && (KeyOf(q).Some? ==> KeyOf(q).value == r.value.key)
    && (TextOf(q).Some? ==> TextOf(q).value == r.value.text)
    && (q.Counting? ==> r.value.key in t)
    && (q.Normalizing? ==> !r.value.unbroken)
    && (q.Missed? && r.value.unbroken ==> r.value.key !in t)
  }

  ghost predicate RequestOk(t: Table, q: Proc, r: Option<Request>) {
    q.Storing? ==> Serves(t, q.s, r)
  }

  lemma OwnStepServes(st: Store, q: Proc, a: Action, p: Pid, r: Option<Request>)
    requires RequestOk(st.table, q, r) && Effect(st, q, a).Some?
    ensures RequestOk(Effect(st, q, a).value.store.table, Effect(st, q, a).value.pc, AskedNext(p, r, (p, a)))
  {
    match q
    case Idle =>
    case Storing(s) => if a.OfStore? { match a.store { case _ => } }
    case Rewriting(w) => match a.rewrite { case _ => }
    case Viewing(r) => match a.read { case _ => }
  }

  /** Only a process with the exclusive lock changes the table. */
  lemma TableChangesExclusively(st: Store, q: Proc, a: Action)
    requires Effect(st, q, a).Some? && !LockMode(q).Exclusive?
    ensures Effect(st, q, a).value.store.table == st.table
  {
    match q
    case Idle =>
    case Storing(s) => if a.OfStore? { match a.store { case _ => } }
    case Viewing(r) => match a.read { case _ => }
  }

  lemma AnyStepServes(s: State, p: Pid, r: Option<Request>, step: Step)
    requires Inv(s) && Enabled(s, step.0, step.1) && RequestOk(s.store.table, Pc(s, p), r)
    ensures
      var s' := Next(s, step.0, step.1);
      RequestOk(s'.store.table, Pc(s', p), AskedNext(p, r, step))
  {
    if step.0 == p {
      OwnStepServes(s.store, Pc(s, p), step.1, p, r);
    } else if !LockMode(Pc(s, p)).Free? {
      var q := Pc(s, step.0);
      if LockMode(q).Exclusive? {
        ExclusiveIsAlone(s, step.0, p);
      }
      TableChangesExclusively(s.store, q, step.1);
    }
  }

  lemma {:induction false} RunServes(s: State, steps: seq<Step>, s': State, p: Pid, r: Option<Request>)
    requires Inv(s) && Runs(s, steps, s') && RequestOk(s.store.table, Pc(s, p), r)
    ensures RequestOk(s'.store.table, Pc(s', p), Asked(p, r, steps))
    decreases |steps|
  {
    if steps == [] {
    } else {
      var m := Next(s, steps[0].0, steps[0].1);
      InvKept(s, steps[0].0, steps[0].1);
      AnyStepServes(s, p, r, steps[0]);
      RunServes(m, steps[1..], s', p, AskedNext(p, r, steps[0]));
    }
  }

  /**
   A process counts a call only for the key it was asked for and only if that key has an entry; it goes on to store a
   text only if the key had none while it kept the lock.
   */
  lemma LookedUpRightly(s0: State, steps: seq<Step>, s: State, p: Pid)
    requires Init(s0) && Runs(s0, steps, s) && Pc(s, p).Storing?
    ensures Serves(s.store.table, Pc(s, p).s, Asked(p, None, steps))
  {
    InitInv(s0);
    RunServes(s0, steps, s, p, None);
  }

  // ---------------------------------------------------------------- making the entry

  /** `t'` is `t` without the victims, with an entry for the key: the one found, or else a new one for the text. */
  ghost predicate EntryMade(t: Table, victims: set<HashKey>, key: HashKey, text: Text, t': Table) {
    && t'.Keys == t.Keys - victims + {key}
    && (forall k :: k in t && k !in victims ==> t'[k] == t[k])
    && (key !in t || key in victims ==> t'[key].loc != DROPPED && t'[key].origin == text)
  }

  /**
   When a process makes an entry, it is for the key it was asked for, with the text of its last request or
   normalization, which can be read back from the file; an entry that is there already, and every other entry that is
   not evicted, stays as it is.
   */
  lemma PublishEnters(s0: State, steps: seq<Step>, s: State, p: Pid, victims: set<HashKey>)
    requires Init(s0) && Runs(s0, steps, s) && Enabled(s, p, OfStore(Publish(victims)))
    ensures
      var r, s' := Asked(p, None, steps), Next(s, p, OfStore(Publish(victims)));
      && r.Some?
      && EntryMade(s.store.table, victims, r.value.key, r.value.text, s'.store.table)
      && s'.store == s.store.(table := s'.store.table)
      && (r.value.key !in s.store.table || r.value.key in victims ==>
            ReadText(s'.store.table[r.value.key].loc, s'.store.file) == Some(r.value.text))
  {
    InitInv(s0);
    InvReachable(s0, steps, s);
    RunServes(s0, steps, s, p, None);
    PublishMakesEntry(s, p, victims);
    var s' := Next(s, p, OfStore(Publish(victims)));
    InvKept(s, p, OfStore(Publish(victims)));
    QuietTextUnderLock(s', p, Pc(s, p).s.key);
  }

  lemma PublishMakesEntry(s: State, p: Pid, victims: set<HashKey>)
    requires Enabled(s, p, OfStore(Publish(victims)))
    ensures Pc(s, p).Storing? && Pc(s, p).s.Ready?
    ensures
      var q, s' := Pc(s, p).s, Next(s, p, OfStore(Publish(victims)));
      && EntryMade(s.store.table, victims, q.key, q.text, s'.store.table)
      && s'.store == s.store.(table := s'.store.table)
      && Pc(s', p) == Storing(Holding(true))
  {
    var q := Pc(s, p).s;
    EnteredMakesEntry(s.store.table, victims, q.key, q.text, q.off);
  }

  lemma EnteredMakesEntry(t: Table, victims: set<HashKey>, key: HashKey, text: Text, off: nat)
    ensures EntryMade(t, victims, key, text, Entered(t, victims, key, text, off))
  {
  }

  lemma QuietTextUnderLock(s: State, p: Pid, k: HashKey)
    requires Inv(s) && Pc(s, p) == Storing(Holding(true)) && k in s.store.table
    ensures
      var e := s.store.table[k];
      e.loc != DROPPED ==> ReadText(e.loc, s.store.file) == Some(e.origin)
  {
    LockMeansQuiet(s, p);
    QuietText(s, k);
  }

  // ---------------------------------------------------------------- what a reader gets

  /** Whether the process failed to reload the file since it last took the lock to read. */
  function ReloadFailed(p: Pid, failed: bool, steps: seq<Step>): bool
    decreases |steps|
  {
    if steps == [] then failed else ReloadFailed(p, ReloadFailedNext(p, failed, steps[0]), steps[1..])
  }

  predicate ReloadFailedNext(p: Pid, failed: bool, step: Step) {
    if step.0 != p then failed
    else if step.1 == OfRead(LockShared) then false
    else failed || step.1 == OfRead(ReloadFail)
  }

  predicate HasImage(q: Proc, failed: bool) {
    q == Viewing(Reading(None)) ==> failed
  }

  lemma StepHasImage(s: State, p: Pid, failed: bool, step: Step)
    requires HasImage(Pc(s, p), failed) && Enabled(s, step.0, step.1)
    ensures HasImage(Pc(Next(s, step.0, step.1), p), ReloadFailedNext(p, failed, step))
  {
    if step.0 == p {
      var (q, a) := (Pc(s, p), step.1);
      match q
      case Idle =>
      case Storing(t) => if a.OfStore? { match a.store { case _ => } }
      case Rewriting(w) => match a.rewrite { case _ => }
      case Viewing(r) => match a.read { case _ => }
    }
  }

  lemma {:induction false} RunHasImage(s: State, steps: seq<Step>, s': State, p: Pid, failed: bool)
    requires Runs(s, steps, s') && HasImage(Pc(s, p), failed)
    ensures HasImage(Pc(s', p), ReloadFailed(p, failed, steps))
    decreases |steps|
  {
    if steps == [] {
    } else {
      StepHasImage(s, p, failed, steps[0]);
      RunHasImage(Next(s, steps[0].0, steps[0].1), steps[1..], s', p, ReloadFailedNext(p, failed, steps[0]));
    }
  }

  /**
   A reader that scans the table and has not failed to reload the file since it took the lock has an image of the file,
   loaded without the lock or under it, and reads from it the tag, extras and query of every entry that has a text.
   */
  lemma ReaderGetsTexts(s0: State, steps: seq<Step>, s: State, p: Pid, image: Option<seq<Byte>>)
    requires Init(s0) && Runs(s0, steps, s)
    requires Pc(s, p) == Viewing(Reading(image)) && !ReloadFailed(p, false, steps)
    ensures image.Some? && forall k :: k in s.store.table ==> TrueText(s.store.table[k], image.value)
  {
    RunHasImage(s0, steps, s, p, false);
    forall k | k in s.store.table ensures TrueText(s.store.table[k], image.value) {
      ReaderSeesTrueTexts(s0, steps, s, p, image.value, k);
    }
  }
}
