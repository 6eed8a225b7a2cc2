/**
 Garbage collection in the locking protocol: what its steps do together is one collection, and what a collection does
 to the stores that the protocol can reach.
 */
module TextGcReachable {
  import opened Results
  import opened QueryTexts
  import opened TextProtocol
  import TextInvariant
  import Gc = TextGc

  function LocsOf(t: Table): Gc.Locs {
    map k | k in t :: t[k].loc
  }

  /** What reading an entry should give. */
  function TextOf(e: Entry): Option<seq<Byte>> {
    if e.loc == DROPPED then None else Some(Body(e.origin))
  }

  lemma ReachableTextsApart(s0: State, steps: seq<(Pid, Action)>, s: State)
    requires TextInvariant.Init(s0) && Runs(s0, steps, s) && TextInvariant.Quiet(s) && s.store.file.Some?
    ensures Gc.TextsApart(LocsOf(s.store.table), s.store.file.value)
  {
    TextInvariant.InitInv(s0);
    TextInvariant.InvReachable(s0, steps, s);
    var (t, locs) := (s.store.table, LocsOf(s.store.table));
    forall k, k' | k in locs && k' in locs && k != k' && TextLen(locs[k]) >= 0 && TextLen(locs[k']) >= 0
      ensures Gc.Apart(locs[k], locs[k'])
    {
      assert TextInvariant.Live(t, k) && TextInvariant.Live(t, k');
      assert TextInvariant.Apart(
        TextInvariant.Off(t, k), |TextInvariant.Img(t, k)|, TextInvariant.Off(t, k'), |TextInvariant.Img(t, k')|);
    }
  }

  /**
   Collecting a reachable store never needs more room than the file has, and every entry that had its text can be
   read afterwards: tag, extras and query as it was created with.
   */
  lemma ReachableCollection(s0: State, steps: seq<(Pid, Action)>, s: State, now: Gc.Locs, out: seq<Byte>)
    requires TextInvariant.Init(s0) && Runs(s0, steps, s) && TextInvariant.Quiet(s) && s.store.file.Some?
    requires Gc.Compacted(LocsOf(s.store.table), now, s.store.file.value, out)
    ensures |out| <= |s.store.file.value|
    ensures forall k :: k in s.store.table ==>
      k in now && Fetch(now[k], Some(out)) == TextOf(s.store.table[k])
  {
    var (f, locs) := (s.store.file.value, LocsOf(s.store.table));
    ReachableTextsApart(s0, steps, s);
    Gc.CompactedDoesNotGrow(locs, now, f, out);
    forall k | k in s.store.table
      ensures k in now && Fetch(now[k], Some(out)) == TextOf(s.store.table[k])
    {
      assert k in locs;
      Gc.CompactedKeepsTexts(locs, now, f, out, k);
      TextInvariant.EntriesKeepTheirTexts(s0, steps, s, k);
    }
  }

  // ---------------------------------------------------------------- the steps of a collection

  /** What a collecting process has done to the table it found, given the image it loaded. */
  ghost predicate Collecting(orig: Gc.Locs, buf: seq<Byte>, st: Store, w: RewritePc) {
    match w
    case GcLoaded(b) => b == buf && LocsOf(st.table) == orig
    case GcCopying(b, todo, out, _) => b == buf && CopiedTo(orig, buf, LocsOf(st.table), todo, out)
    case GcFailed(_, _) => true
    case Rewritten(len) => len == |Bytes(st)| && Gc.Compacted(orig, LocsOf(st.table), buf, Bytes(st))
    case ExtentSet => st.extent == |Bytes(st)| && Gc.Compacted(orig, LocsOf(st.table), buf, Bytes(st))
    case _ => false
  }

  ghost predicate CopiedTo(orig: Gc.Locs, buf: seq<Byte>, now: Gc.Locs, todo: set<HashKey>, out: seq<Byte>) {
    exists log: Gc.Log :: Gc.Copying(orig, now, buf, todo, log) && out == Gc.Blocks(log, buf)
  }

  lemma NothingCopied(orig: Gc.Locs, buf: seq<Byte>)
    ensures CopiedTo(orig, buf, orig, orig.Keys, [])
  {
    assert Gc.Copying(orig, orig, buf, orig.Keys, Gc.Empty);
  }

  lemma CopyOne(orig: Gc.Locs, buf: seq<Byte>, now: Gc.Locs, todo: set<HashKey>, out: seq<Byte>, k: HashKey)
    requires CopiedTo(orig, buf, now, todo, out) && k in todo && k in now
    ensures
      var text := Fetch(now[k], Some(buf));
      if text.None? then CopiedTo(orig, buf, now[k := DROPPED], todo - {k}, out)
      else CopiedTo(orig, buf, now[k := now[k].(offset := |out|)], todo - {k}, out + text.value + [0])
  {
    var log: Gc.Log :| Gc.Copying(orig, now, buf, todo, log) && out == Gc.Blocks(log, buf);
    var text := Fetch(now[k], Some(buf));
    if text.None? {
      Gc.DropNext(orig, now, buf, todo, log, k);
    } else {
      var to := now[k].(offset := |out|);
      Gc.CopyNext(orig, now, buf, todo, log, k, to);
      assert out + text.value + [0] == Gc.Blocks(Gc.More(log, Gc.Move(k, orig[k], to)), buf);
    }
  }

  lemma LocsUpdated(t: Table, k: HashKey, e: Entry)
    ensures LocsOf(t[k := e]) == LocsOf(t)[k := e.loc]
  {
  }

  lemma GcCopyCollects(orig: Gc.Locs, buf: seq<Byte>, st: Store, w: RewritePc, k: HashKey)
    requires w.GcCopying? && Collecting(orig, buf, st, w) && RewriteStep(st, w, GcCopy(k)).Some?
    ensures
      var o := RewriteStep(st, w, GcCopy(k)).value;
      o.pc.Rewriting? && Collecting(orig, buf, o.store, o.pc.w)
  {
    CopyOne(orig, buf, LocsOf(st.table), w.todo, w.out, k);
    LocsUpdated(st.table, k, st.table[k].(loc := DROPPED));
    LocsUpdated(st.table, k, Moved(st.table[k], |w.out|));
  }

  lemma GcCloseCollects(orig: Gc.Locs, buf: seq<Byte>, st: Store, w: RewritePc)
    requires TextInvariant.RewriteOk(st, w) && Collecting(orig, buf, st, w) && RewriteStep(st, w, GcClose).Some?
    ensures Collecting(orig, buf, st, Rewritten(|w.out|))
  {
    assert w.out[..w.pos] == w.out;
    HoldsAll(Bytes(st), w.out);
    var log: Gc.Log :| Gc.Copying(orig, LocsOf(st.table), buf, w.todo, log) && w.out == Gc.Blocks(log, buf);
    assert w.todo == {};
  }

  /** Until it advances gc_count, a collecting process goes on collecting, unless it has failed. */
  lemma StepCollects(orig: Gc.Locs, buf: seq<Byte>, st: Store, w: RewritePc, a: RewriteAction)
    requires TextInvariant.RewriteOk(st, w) && Collecting(orig, buf, st, w)
    requires RewriteStep(st, w, a).Some? && !a.GcInvalidate? && !a.Bump?
    ensures
      var o := RewriteStep(st, w, a).value;
      o.pc.Rewriting? && Collecting(orig, buf, o.store, o.pc.w)
  {
    match a
    case GcOpen => NothingCopied(orig, buf);
    case GcCopy(k) => GcCopyCollects(orig, buf, st, w, k);
    case GcClose => GcCloseCollects(orig, buf, st, w);
    case _ =>
  }

  lemma OtherStepCollects(orig: Gc.Locs, buf: seq<Byte>, s: State, p: Pid, a: Action, c: Pid)
    requires TextInvariant.LocksOk(s) && Enabled(s, p, a) && p != c
    requires c in s.procs && s.procs[c].Rewriting? && Collecting(orig, buf, s.store, s.procs[c].w)
    ensures
      var s' := Next(s, p, a);
      s'.store == s.store && c in s'.procs && s'.procs[c] == s.procs[c]
  {
    if p in s.procs {
      TextInvariant.ExclusiveIsAlone(s, c, p);
    }
    TextInvariant.FreeStepIsLocal(s.store, Pc(s, p), a);
  }

  lemma AnyStepCollects(orig: Gc.Locs, buf: seq<Byte>, s: State, p: Pid, a: Action, c: Pid)
    requires TextInvariant.Inv(s) && Enabled(s, p, a) && a != OfRewrite(GcInvalidate)
    requires Next(s, p, a).store.gcCount == s.store.gcCount
    requires c in s.procs && s.procs[c].Rewriting? && Collecting(orig, buf, s.store, s.procs[c].w)
    ensures
      var s' := Next(s, p, a);
      c in s'.procs && s'.procs[c].Rewriting? && Collecting(orig, buf, s'.store, s'.procs[c].w)
  {
    if p == c {
      StepCollects(orig, buf, s.store, s.procs[c].w, a.rewrite);
    } else {
      OtherStepCollects(orig, buf, s, p, a, c);
    }
  }

  lemma {:induction false} GcCountGrows(s: State, steps: seq<(Pid, Action)>, s': State)
    requires Runs(s, steps, s')
    ensures s.store.gcCount <= s'.store.gcCount
    decreases |steps|
  {
    if steps == [] {
    } else {
      var (p, a) := steps[0];
      TextInvariant.StepVersion(s.store, Pc(s, p), a);
      GcCountGrows(Next(s, p, a), steps[1..], s');
    }
  }

  /** Whatever the others do meanwhile, the process works on the one collection until gc_count advances. */
  lemma {:induction false} RunCollects(orig: Gc.Locs, buf: seq<Byte>, s: State, steps: seq<(Pid, Action)>, s': State,
                                       c: Pid)
    requires TextInvariant.Inv(s) && Runs(s, steps, s') && s'.store.gcCount == s.store.gcCount
    requires forall i :: 0 <= i < |steps| ==> steps[i].1 != OfRewrite(GcInvalidate)
    requires c in s.procs && s.procs[c].Rewriting? && Collecting(orig, buf, s.store, s.procs[c].w)
    ensures c in s'.procs && s'.procs[c].Rewriting? && Collecting(orig, buf, s'.store, s'.procs[c].w)
    decreases |steps|
  {
    if steps == [] {
    } else {
      var (p, a) := steps[0];
      var m := Next(s, p, a);
      TextInvariant.InvKept(s, p, a);
      TextInvariant.StepVersion(s.store, Pc(s, p), a);
      GcCountGrows(m, steps[1..], s');
      AnyStepCollects(orig, buf, s, p, a, c);
      RunCollects(orig, buf, m, steps[1..], s', c);
    }
  }

  /**
   A collection that has loaded the file and gets as far as storing the extent without failing has compacted the table
   it found: whatever other processes did meanwhile, the texts tile the new file, which is no longer than the old one,
   and every entry reads what it was created with.
   */
  lemma ConcurrentCollection(s0: State, before: seq<(Pid, Action)>, s: State, steps: seq<(Pid, Action)>, s': State,
                             c: Pid, buf: seq<Byte>)
    requires TextInvariant.Init(s0) && Runs(s0, before, s) && c in s.procs && s.procs[c] == Rewriting(GcLoaded(buf))
    requires Runs(s, steps, s') && s'.store.gcCount == s.store.gcCount
    requires forall i :: 0 <= i < |steps| ==> steps[i].1 != OfRewrite(GcInvalidate)
    requires c in s'.procs && s'.procs[c] == Rewriting(ExtentSet)
    ensures Gc.Compacted(LocsOf(s.store.table), LocsOf(s'.store.table), buf, Bytes(s'.store))
    ensures s'.store.extent == |Bytes(s'.store)| <= |buf|
    ensures forall k :: k in s.store.table ==>
      && k in s'.store.table
      && Fetch(s'.store.table[k].loc, Some(Bytes(s'.store))) == TextOf(s.store.table[k])
  {
    TextInvariant.InitInv(s0);
    TextInvariant.InvReachable(s0, before, s);
    TextInvariant.LockMeansQuiet(s, c);
    RunCollects(LocsOf(s.store.table), buf, s, steps, s', c);
    ReachableCollection(s0, before, s, LocsOf(s'.store.table), Bytes(s'.store));
  }
}
