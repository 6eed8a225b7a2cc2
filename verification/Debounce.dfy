/**
 Batching of events: `debounce` (edb/common/asyncutil.py).  One turn of its endless loop is one step; what the loop
 receives is an event or a timeout, with the clock reading taken after it.
 */
module Debounce {
  import opened Results

  datatype Params = Params(maxWait: real, delay: real, maxBatch: int)

  /** What one `await` of the loop ends with. */
  datatype Input<T> = Event(value: T, time: real) | Timeout(time: real)

  datatype Output<T> = Output(batch: seq<T>, time: real)

  datatype Vars<T> = Vars(batch: seq<T>, lastSignal: real, target: Option<real>)

  function Min(a: real, b: real): real {
    if a <= b then a else b
  }

  function Max(a: real, b: real): real {
    if a >= b then a else b
  }

  function Start<T>(c: Params): Vars<T> {
    Vars([], -c.maxWait, None)
  }

  /** The target time after an event at time `t`. */
  function Retarget(c: Params, lastSignal: real, target: Option<real>, t: real): Option<real> {
    if target.None? && t - lastSignal < c.delay then Some(t + c.delay)
    else if target.Some? then Some(Min(Max(t + c.delay, target.value), lastSignal + c.maxWait))
    else None
  }

  /** The variables when the loop decides whether to send. */
  function Received<T>(c: Params, s: Vars<T>, x: Input<T>): Vars<T> {
    match x
    case Timeout(_) => s
    case Event(v, t) => Vars(s.batch + [v], s.lastSignal, Retarget(c, s.lastSignal, s.target, t))
  }

  predicate MustWait<T>(c: Params, s: Vars<T>, t: real) {
    s.target.Some? && t < s.target.value && |s.batch| < c.maxBatch
  }

  function Turn<T>(c: Params, s: Vars<T>, x: Input<T>): (Vars<T>, Option<Output<T>>) {
    var r := Received(c, s, x);
    if MustWait(c, r, x.time) then (r, None)
    else (Vars([], x.time, None), Some(Output(r.batch, x.time)))
  }

  function Sent<T>(o: Option<Output<T>>): seq<Output<T>> {
    if o.None? then [] else [o.value]
  }

  // ---------------------------------------------------------------- runs

  /** The inputs of a run, latest last. */
  datatype Inputs<T> = NoInput | Then(before: Inputs<T>, x: Input<T>)

  datatype Trace<T> = Trace(vars: Vars<T>, sent: seq<Output<T>>)

  function Run<T>(c: Params, xs: Inputs<T>): Trace<T> {
    if xs.NoInput? then Trace(Start(c), []) else
      var before := Run(c, xs.before);
      var (vars, o) := Turn(c, before.vars, xs.x);
      Trace(vars, before.sent + Sent(o))
  }

  /** The clock reading after a run; the clock of the event loop starts at zero or later. */
  function Clock<T>(xs: Inputs<T>): real {
    if xs.NoInput? then 0.0 else xs.x.time
  }

  /** Timeouts come only while a target is set, and the clock never runs backwards. */
  ghost predicate Possible<T>(c: Params, xs: Inputs<T>) {
    xs.Then? ==>
      && Possible(c, xs.before)
      && Clock(xs.before) <= xs.x.time
      && (xs.x.Timeout? ==> Run(c, xs.before).vars.target.Some?)
  }

  /** The values received, in order. */
  function Values<T>(xs: Inputs<T>): seq<T> {
    if xs.NoInput? then [] else Values(xs.before) + Value(xs.x)
  }

  function Value<T>(x: Input<T>): seq<T> {
    if x.Event? then [x.value] else []
  }

  function Flatten<T>(sent: seq<Output<T>>): seq<T> {
    if sent == [] then [] else Flatten(sent[..|sent| - 1]) + sent[|sent| - 1].batch
  }

  lemma FlattenOneMore<T>(sent: seq<Output<T>>, o: Output<T>)
    ensures Flatten(sent + [o]) == Flatten(sent) + o.batch
  {
    assert (sent + [o])[..|sent|] == sent;
  }

  /** One turn loses nothing. */
  lemma TurnLosesNothing<T>(c: Params, s: Vars<T>, sent: seq<Output<T>>, x: Input<T>)
    ensures
      var (s', o) := Turn(c, s, x);
      Flatten(sent + Sent(o)) + s'.batch == Flatten(sent) + s.batch + Value(x)
  {
    var r := Received(c, s, x);
    assert Flatten(sent) + r.batch == Flatten(sent) + s.batch + Value(x);
    if MustWait(c, r, x.time) {
      assert sent + [] == sent;
    } else {
      FlattenOneMore(sent, Output(r.batch, x.time));
    }
  }

  /** Nothing is lost, repeated or reordered. */
  lemma {:induction false} NothingLost<T>(c: Params, xs: Inputs<T>)
    ensures Flatten(Run(c, xs).sent) + Run(c, xs).vars.batch == Values(xs)
  {
    if xs.NoInput? {
    } else {
      var before := Run(c, xs.before);
      NothingLost(c, xs.before);
      TurnLosesNothing(c, before.vars, before.sent, xs.x);
    }
  }

  // ---------------------------------------------------------------- batches and times

  /** Between turns something waits exactly while a target is set; the target is in its bounds and not past. */
  ghost predicate Waiting<T>(c: Params, s: Vars<T>, clock: real) {
    && s.lastSignal <= Max(clock, -c.maxWait)
    && (s.batch != [] <==> s.target.Some?)
    && (s.target.Some? ==>
          && |s.batch| < c.maxBatch && c.delay > 0.0 && clock < s.target.value
          && s.lastSignal + Min(c.delay, c.maxWait) <= s.target.value <= s.lastSignal + Max(2.0 * c.delay, c.maxWait))
  }

  /** A batch is not empty, not too long, and not sent too soon after the previous signal unless it is full. */
  ghost predicate Proper<T>(c: Params, last: real, o: Output<T>) {
    && 1 <= |o.batch|
    && (|o.batch| <= c.maxBatch || |o.batch| == 1)
    && (|o.batch| < c.maxBatch ==> last + Min(c.delay, c.maxWait) <= o.time)
  }

  lemma TurnOk<T>(c: Params, s: Vars<T>, clock: real, x: Input<T>)
    requires Waiting(c, s, clock) && 0.0 <= clock <= x.time && (x.Timeout? ==> s.target.Some?)
    ensures
      var (s', o) := Turn(c, s, x);
      Waiting(c, s', x.time) && (o.Some? ==> Proper(c, s.lastSignal, o.value) && s'.lastSignal == o.value.time)
      && (o.None? ==> s'.lastSignal == s.lastSignal)
  {
  }

  /** The times of the outputs, preceded by the fictitious first signal. */
  function SignalBefore<T>(c: Params, sent: seq<Output<T>>, i: nat): real
    requires i <= |sent|
  {
    if i == 0 then -c.maxWait else sent[i - 1].time
  }

  /** Every output is proper with respect to the one before it, and `last` is the time of the last one. */
  ghost predicate AllProper<T>(c: Params, sent: seq<Output<T>>, last: real) {
    && last == SignalBefore(c, sent, |sent|)
    && forall i :: 0 <= i < |sent| ==> Proper(c, SignalBefore(c, sent, i), sent[i])
  }

  lemma OneMoreProper<T>(c: Params, sent: seq<Output<T>>, last: real, o: Output<T>)
    requires AllProper(c, sent, last) && Proper(c, last, o)
    ensures AllProper(c, sent + [o], o.time)
  {
    var sent' := sent + [o];
    forall i | 0 <= i < |sent'| ensures Proper(c, SignalBefore(c, sent', i), sent'[i]) {
      assert SignalBefore(c, sent', i) == SignalBefore(c, sent, i);
    }
  }

  lemma {:induction false} RunOk<T>(c: Params, xs: Inputs<T>)
    requires Possible(c, xs)
    ensures 0.0 <= Clock(xs) && Waiting(c, Run(c, xs).vars, Clock(xs))
    ensures AllProper(c, Run(c, xs).sent, Run(c, xs).vars.lastSignal)
  {
    if xs.NoInput? {
    } else {
      RunOk(c, xs.before);
      var before := Run(c, xs.before);
      TurnOk(c, before.vars, Clock(xs.before), xs.x);
      var o := Turn(c, before.vars, xs.x).1;
      if o.Some? {
        OneMoreProper(c, before.sent, before.vars.lastSignal, o.value);
      } else {
        assert before.sent + [] == before.sent;
      }
    }
  }

  // ---------------------------------------------------------------- when a batch is sent

  /** The time of the last event. */
  function LastEvent<T>(xs: Inputs<T>): real {
    if xs.NoInput? then 0.0 else if xs.x.Event? then xs.x.time else LastEvent(xs.before)
  }

  /**
   Whether `n` waiting events, the last of them at `last`, are due at time `t`, the previous signal having been at
   `prev`: the batch is full, or the delay has passed since the last event, or there are several and the maximal wait
   has passed since the previous signal, or there is one and it came late enough to be sent at once.
   */
  predicate Due(c: Params, prev: real, n: nat, last: real, t: real) {
    || n >= c.maxBatch
    || last + c.delay <= t
    || (n == 1 && last >= prev + c.delay)
    || (n > 1 && prev + c.maxWait <= t)
  }

  /** The target is the delay after the last event; once there are several events it is not beyond the maximal wait. */
  ghost predicate OnTarget<T>(c: Params, s: Vars<T>, last: real) {
    s.target.Some? ==>
      && (|s.batch| == 1 ==> last < s.lastSignal + c.delay && s.target.value == last + c.delay)
      && (|s.batch| > 1 ==>
            var (delayed, latest) := (last + c.delay, s.lastSignal + c.maxWait);
            s.target.value == if delayed <= latest then delayed else latest)
  }

  lemma TurnDue<T>(c: Params, s: Vars<T>, clock: real, last: real, x: Input<T>)
    requires Waiting(c, s, clock) && OnTarget(c, s, last) && last <= clock <= x.time
    requires x.Timeout? ==> s.target.Some?
    ensures
      var ((s', o), last') := (Turn(c, s, x), if x.Event? then x.time else last);
      && OnTarget(c, s', last')
      && (o.Some? <==> Due(c, s.lastSignal, |s.batch + Value(x)|, last', x.time))
      && (o.Some? ==> o.value == Output(s.batch + Value(x), x.time))
  {
    if x.Timeout? {
      assert s.batch + Value(x) == s.batch;
    }
  }

  lemma {:induction false} RunOnTarget<T>(c: Params, xs: Inputs<T>)
    requires Possible(c, xs)
    ensures OnTarget(c, Run(c, xs).vars, LastEvent(xs)) && LastEvent(xs) <= Clock(xs)
  {
    if xs.NoInput? {
    } else {
      RunOnTarget(c, xs.before);
      RunOk(c, xs.before);
      TurnDue(c, Run(c, xs.before).vars, Clock(xs.before), LastEvent(xs.before), xs.x);
    }
  }

  /**
   What an input at time `t` does to the outputs, given all values received and the time of the last event: everything
   received and not sent yet goes out together if it is due, and nothing goes out otherwise.
   */
  ghost predicate SendsIfDue<T>(c: Params, before: seq<Output<T>>, after: seq<Output<T>>, values: seq<T>, last: real,
                                t: real) {
    SendsRestIfDue(c, SignalBefore(c, before, |before|), |Flatten(before)|, before, after, values, last, t)
  }

  /** The same, given the time of the last signal and the number of values already sent. */
  ghost predicate SendsRestIfDue<T>(c: Params, signal: real, done: nat, before: seq<Output<T>>,
                                    after: seq<Output<T>>, values: seq<T>, last: real, t: real) {
    && done < |values|
    && if Due(c, signal, |values| - done, last, t)
       then after == before + [Output(values[done..], t)]
       else after == before
  }

  lemma SentRest<T>(c: Params, signal: real, flat: seq<T>, before: seq<Output<T>>, batch: seq<T>,
                    o: Option<Output<T>>, last: real, t: real)
    requires batch != []
    requires o.Some? <==> Due(c, signal, |batch|, last, t)
    requires o.Some? ==> o.value == Output(batch, t)
    ensures SendsRestIfDue(c, signal, |flat|, before, before + Sent(o), flat + batch, last, t)
  {
    assert (flat + batch)[|flat|..] == batch;
    assert before + [] == before;
  }

  lemma ValuesSplit<T>(c: Params, xs: Inputs<T>)
    requires xs.Then?
    ensures
      var before := Run(c, xs.before);
      Values(xs) == Flatten(before.sent) + (before.vars.batch + Value(xs.x))
  {
    NothingLost(c, xs.before);
  }

  lemma LastTurnDue<T>(c: Params, xs: Inputs<T>)
    requires xs.Then? && Possible(c, xs)
    ensures
      var before := Run(c, xs.before);
      var batch, o := before.vars.batch + Value(xs.x), Turn(c, before.vars, xs.x).1;
      && batch != []
      && (o.Some? <==> Due(c, SignalBefore(c, before.sent, |before.sent|), |batch|, LastEvent(xs), xs.x.time))
      && (o.Some? ==> o.value == Output(batch, xs.x.time))
  {
    RunOk(c, xs.before);
    RunOnTarget(c, xs.before);
    TurnDue(c, Run(c, xs.before).vars, Clock(xs.before), LastEvent(xs.before), xs.x);
  }

  /** When a batch is sent, from inputs and outputs alone. */
  lemma SentExactlyWhenDue<T>(c: Params, xs: Inputs<T>)
    requires xs.Then? && Possible(c, xs)
    ensures SendsIfDue(c, Run(c, xs.before).sent, Run(c, xs).sent, Values(xs), LastEvent(xs), xs.x.time)
  {
    var before := Run(c, xs.before);
    var (batch, o) := (before.vars.batch + Value(xs.x), Turn(c, before.vars, xs.x).1);
    ValuesSplit(c, xs);
    LastTurnDue(c, xs);
    SentRest(c, SignalBefore(c, before.sent, |before.sent|), Flatten(before.sent), before.sent, batch, o, LastEvent(xs),
             xs.x.time);
  }

  /** An event that comes at least the delay after the last signal, while nothing waits, is sent at once and alone. */
  lemma SentAtOnce<T>(c: Params, xs: Inputs<T>, v: T, t: real)
    requires Possible(c, Then(xs, Event(v, t)))
    requires Run(c, xs).vars.target.None? && t - Run(c, xs).vars.lastSignal >= c.delay
    ensures Run(c, Then(xs, Event(v, t))).sent == Run(c, xs).sent + [Output([v], t)]
  {
    RunOk(c, xs);
    assert Run(c, xs).vars.batch + [v] == [v];
  }

  // ---------------------------------------------------------------- "up to max_wait"

  ghost predicate WithinMaxWait<T>(c: Params, s: Vars<T>) {
    s.target.Some? ==> s.target.value <= s.lastSignal + c.maxWait
  }

  /**
   The wait is said to be extended up to max_wait.  That bound is not applied to the first target, so it holds in
   every run exactly when twice the delay fits in it, no delay is asked for, or nothing ever waits.
   */
  lemma WaitBound<T>(c: Params, v: T)
    ensures (forall xs: Inputs<T> :: Possible(c, xs) ==> WithinMaxWait(c, Run(c, xs).vars))
            <==> 2.0 * c.delay <= c.maxWait || c.delay <= 0.0 || c.maxBatch <= 1
  {
    if 2.0 * c.delay <= c.maxWait || c.delay <= 0.0 || c.maxBatch <= 1 {
      forall xs: Inputs<T> | Possible(c, xs) ensures WithinMaxWait(c, Run(c, xs).vars) {
        RunOk(c, xs);
      }
    } else {
      LateEvent(c, v);
    }
  }

  /** An event half the maximal wait after a signal is given a target beyond that wait. */
  lemma LateEvent<T>(c: Params, v: T)
    requires c.maxBatch > 1 && 2.0 * c.delay > c.maxWait && c.delay > 0.0
    ensures exists xs: Inputs<T> :: Possible(c, xs) && !WithinMaxWait(c, Run(c, xs).vars)
  {
    var t0 := Max(0.0, c.delay - c.maxWait);
    var t1 := t0 + Max(0.0, c.maxWait / 2.0);
    var first := Then(NoInput, Event(v, t0));
    var xs := Then(first, Event(v, t1));
    assert Possible(c, first.before) && Possible(c, first) && Possible(c, xs);
    assert Turn(c, Start(c), first.x).0 == Vars([], t0, None);
    assert Run(c, first).vars == Vars([], t0, None);
    assert Turn(c, Vars([], t0, None), xs.x).0.target == Some(t1 + c.delay) by {
      assert [] + [v] == [v];
    }
    assert !WithinMaxWait(c, Run(c, xs).vars);
  }

  // ---------------------------------------------------------------- the loop

  /** A debouncer between two turns of its loop; `history` is what it has received. */
  class Debouncer<T> {
    const c: Params
    var batch: seq<T>
    var lastSignal: real
    var target: Option<real>
    var sent: seq<Output<T>>
    ghost var history: Inputs<T>

    function Now(): Vars<T>
      reads this
    {
      Vars(batch, lastSignal, target)
    }

    ghost predicate Valid()
      reads this
    {
      Possible(c, history) && Trace(Now(), sent) == Run(c, history)
    }

    constructor (c: Params)
      ensures this.c == c && Valid() && history == NoInput
    {
      this.c := c;
      batch, lastSignal, target, sent := [], -c.maxWait, None, [];
      history := NoInput;
    }

    /**
     One turn; a timeout can only come while a target time is set.  Nothing received is lost, every output is proper,
     and something waits exactly while a target lies ahead.
     */
    method Loop(x: Input<T>)
      requires Valid() && Clock(history) <= x.time && (x.Timeout? ==> target.Some?)
      modifies this
      ensures Valid() && history == Then(old(history), x)
      ensures Flatten(sent) + batch == Values(history)
      ensures AllProper(c, sent, lastSignal) && Waiting(c, Now(), x.time)
      ensures SendsIfDue(c, old(sent), sent, Values(history), LastEvent(history), x.time)
    {
      history := Then(history, x);
      SentExactlyWhenDue(c, history);
      RunOk(c, history);
      NothingLost(c, history);
      Step(x);
    }

    /** The body of the loop after the event or timeout has come. */
    method Step(x: Input<T>)
      modifies this`batch, this`lastSignal, this`target, this`sent
      ensures Now() == Turn(c, old(Now()), x).0
      ensures sent == old(sent) + Sent(Turn(c, old(Now()), x).1)
    {
      var t := x.time;
      if x.Event? {
        batch := batch + [x.value];
        if target.None? && t - lastSignal < c.delay {
          target := Some(t + c.delay);
        } else if target.Some? {
          target := Some(Min(Max(t + c.delay, target.value), lastSignal + c.maxWait));
        }
      }
      if target.Some? && t < target.value && |batch| < c.maxBatch {
        return;
      }
      sent := sent + [Output(batch, t)];
      batch := [];
      lastSignal := t;
      target := None;
    }
  }
}
