/**
 The timing counters of an entry (edb_stat_statements.c: the counter updates of pgss_store and SINGLE_ENTRY_RESET).
 Times are real numbers; rounding is not modelled.
 */
module Counters {

  /** What happened to the counters of one kind, latest last. */
  datatype History = Nothing | Observed(before: History, time: real) | MinMaxReset(before: History)

  ghost function Calls(h: History): nat {
    match h
    case Nothing => 0
    case Observed(b, _) => Calls(b) + 1
    case MinMaxReset(b) => Calls(b)
  }

  ghost function Total(h: History): real {
    match h
    case Nothing => 0.0
    case Observed(b, t) => Total(b) + t
    case MinMaxReset(b) => Total(b)
  }

  /** The sum of the squared deviations of all observations from `c`. */
  ghost function Deviations(h: History, c: real): real {
    match h
    case Nothing => 0.0
    case Observed(b, t) => Deviations(b, c) + (t - c) * (t - c)
    case MinMaxReset(b) => Deviations(b, c)
  }

  ghost function Squares(h: History): real {
    match h
    case Nothing => 0.0
    case Observed(b, t) => Squares(b) + t * t
    case MinMaxReset(b) => Squares(b)
  }

  // ---------------------------------------------------------------- mean and variance

  ghost predicate IsMean(m: real, n: real, total: real) {
    m * n == total
  }

  /** `d` is the sum of squared deviations from `c` of `n` numbers with the given sum and sum of squares. */
  ghost predicate Expanded(d: real, squares: real, total: real, n: real, c: real) {
    d == squares - 2.0 * c * total + n * c * c
  }

  lemma ExpandedZero(c: real)
    ensures Expanded(0.0, 0.0, 0.0, 0.0, c)
  {
  }

  lemma ExpandedNext(d: real, squares: real, total: real, n: real, c: real, t: real)
    requires Expanded(d, squares, total, n, c)
    ensures Expanded(d + (t - c) * (t - c), squares + t * t, total + t, n + 1.0, c)
  {
    assert (t - c) * (t - c) == t * t - 2.0 * c * t + c * c;
    assert 2.0 * c * (total + t) == 2.0 * c * total + 2.0 * c * t;
    assert (n + 1.0) * c * c == n * c * c + c * c;
  }

  /** The sums after one more observation, apart from the products that the proofs below reason about. */
  lemma SumsNext(h: History, t: real, c: real)
    ensures Calls(Observed(h, t)) == Calls(h) + 1
    ensures Total(Observed(h, t)) == Total(h) + t
    ensures Squares(Observed(h, t)) == Squares(h) + t * t
    ensures Deviations(Observed(h, t), c) == Deviations(h, c) + (t - c) * (t - c)
  {
  }

  lemma {:induction false} Expand(h: History, c: real)
    ensures Expanded(Deviations(h, c), Squares(h), Total(h), Calls(h) as real, c)
  {
    match h
    case Nothing =>
      ExpandedZero(c);
    case Observed(b, t) =>
      Expand(b, c);
      SumsNext(b, t, c);
      ExpandedNext(Deviations(b, c), Squares(b), Total(b), Calls(b) as real, c, t);
    case MinMaxReset(b) =>
      Expand(b, c);
  }

  lemma NewMean(m: real, n: real, t: real, e: real)
    requires t - m == (n + 1.0) * e
    ensures (m + e) * (n + 1.0) == m * n + t && t - (m + e) == n * e
  {
    assert (m + e) * (n + 1.0) == m * n + m + (n + 1.0) * e;
  }

  lemma WelfordIdentity(q: real, n: real, m: real, e: real)
    ensures
      var t := m + (n + 1.0) * e;
      (q + t * t) - (n + 1.0) * (m + e) * (m + e) == (q - n * m * m) + ((n + 1.0) * e) * (n * e)
  {
  }

  /** Welford's update on counts, sums and sums of squares; `e` is the change of the mean. */
  lemma WelfordAlgebra(n: real, total: real, q: real, m: real, t: real, e: real, d: real, d': real)
    requires IsMean(m, n, total) && t - m == (n + 1.0) * e
    requires Expanded(d, q, total, n, m) && Expanded(d', q + t * t, total + t, n + 1.0, m + e)
    ensures IsMean(m + e, n + 1.0, total + t)
    ensures d' == d + (t - m) * (t - (m + e))
  {
    NewMean(m, n, t, e);
    WelfordIdentity(q, n, m, e);
    assert m * total == n * m * m;
    assert (m + e) * (total + t) == (n + 1.0) * (m + e) * (m + e);
  }

  lemma ChangeOfMean(m: real, t: real, k: real, m': real)
    requires k != 0.0 && m' == m + (t - m) / k
    ensures t - m == k * (m' - m)
  {
  }

  lemma WelfordSums(n: real, total: real, q: real, m: real, t: real, m': real, d: real, d': real)
    requires n >= 0.0 && m' == m + (t - m) / (n + 1.0)
    requires IsMean(m, n, total) && Expanded(d, q, total, n, m) && Expanded(d', q + t * t, total + t, n + 1.0, m')
    ensures IsMean(m', n + 1.0, total + t)
    ensures d' == d + (t - m) * (t - m')
  {
    ChangeOfMean(m, t, n + 1.0, m');
    WelfordAlgebra(n, total, q, m, t, m' - m, d, d');
  }

  /** The update keeps the mean and the sum of squared deviations exact. */
  lemma WelfordStep(h: History, m: real, t: real, m': real)
    requires IsMean(m, Calls(h) as real, Total(h)) && m' == m + (t - m) / (Calls(h) + 1) as real
    ensures IsMean(m', Calls(Observed(h, t)) as real, Total(Observed(h, t)))
    ensures Deviations(Observed(h, t), m') == Deviations(h, m) + (t - m) * (t - m')
  {
    var h' := Observed(h, t);
    SumsNext(h, t, m');
    Expand(h, m);
    Expand(h', m');
    WelfordSums(Calls(h) as real, Total(h), Squares(h), m, t, m', Deviations(h, m), Deviations(h', m'));
  }

  lemma {:induction false} NoCalls(h: History, c: real)
    requires Calls(h) == 0
    ensures Total(h) == 0.0 && Deviations(h, c) == 0.0 && !h.Observed?
  {
    if h.MinMaxReset? {
      NoCalls(h.before, c);
    }
  }

  // ---------------------------------------------------------------- minimum and maximum

  /** `x` was observed since the last reset of minimum and maximum. */
  ghost predicate Recent(h: History, x: real) {
    h.Observed? && (x == h.time || Recent(h.before, x))
  }

  /** The first observation since the last reset. */
  ghost function FirstRecent(h: History): real
    requires h.Observed?
  {
    if h.before.Observed? then FirstRecent(h.before) else h.time
  }

  ghost predicate AllZero(h: History) {
    forall x :: Recent(h, x) ==> x == 0.0
  }

  /** Since the last reset, a zero was observed after a positive time. */
  ghost predicate ZeroAfterPositive(h: History) {
    h.Observed? && (ZeroAfterPositive(h.before) || (h.time == 0.0 && !AllZero(h.before)))
  }

  ghost predicate NonNegative(h: History) {
    match h
    case Nothing => true
    case Observed(b, t) => t >= 0.0 && NonNegative(b)
    case MinMaxReset(b) => NonNegative(b)
  }

  /** The minimum and maximum over the observations since the last reset; both are zero if there were none. */
  ghost predicate Exact(h: History, lo: real, hi: real) {
    if h.Observed? then Recent(h, lo) && Recent(h, hi) && forall x :: Recent(h, x) ==> lo <= x <= hi
    else lo == 0.0 && hi == 0.0
  }

  /** What the counters hold: zeros that come before the first positive time do not lower the minimum. */
  ghost predicate Tracked(h: History, lo: real, hi: real) {
    && (!h.Observed? ==> lo == 0.0 && hi == 0.0)
    && (h.Observed? ==>
          && Recent(h, lo) && Recent(h, hi)
          && (forall x :: Recent(h, x) ==> x <= hi)
          && (forall x :: Recent(h, x) ==> lo <= x || x == 0.0)
          && (FirstRecent(h) > 0.0 ==> forall x :: Recent(h, x) ==> lo <= x)
          && (lo == 0.0 <==> hi == 0.0 || ZeroAfterPositive(h)))
  }

  /** The branches of the minimum and maximum update. */
  function NextMin(lo: real, hi: real, t: real): real {
    if lo == 0.0 && hi == 0.0 then t else if lo > t then t else lo
  }

  function NextMax(lo: real, hi: real, t: real): real {
    if lo == 0.0 && hi == 0.0 then t else if hi < t then t else hi
  }

  lemma TrackedNext(h: History, lo: real, hi: real, t: real)
    requires NonNegative(h) && Tracked(h, lo, hi) && t >= 0.0
    ensures Tracked(Observed(h, t), NextMin(lo, hi, t), NextMax(lo, hi, t))
  {
    var h' := Observed(h, t);
    forall x | Recent(h, x) ensures x >= 0.0 {
      RecentNonNegative(h, x);
    }
    assert Recent(h', t) && forall x :: Recent(h', x) <==> x == t || Recent(h, x);
    if !h.Observed? {
      assert AllZero(h) && !ZeroAfterPositive(h);
    } else if hi == 0.0 {
      assert AllZero(h);
      AllZeroHistory(h);
    } else {
      assert !AllZero(h);
    }
  }

  lemma {:induction false} RecentNonNegative(h: History, x: real)
    requires NonNegative(h) && Recent(h, x)
    ensures x >= 0.0
  {
    if x != h.time {
      RecentNonNegative(h.before, x);
    }
  }

  lemma {:induction false} AllZeroHistory(h: History)
    requires AllZero(h) && h.Observed?
    ensures FirstRecent(h) == 0.0 && !ZeroAfterPositive(h)
  {
    assert Recent(h, h.time);
    assert AllZero(h.before) by {
      forall x | Recent(h.before, x) ensures x == 0.0 {
        assert Recent(h, x);
      }
    }
    if h.before.Observed? {
      AllZeroHistory(h.before);
    }
  }

  lemma {:induction false} FirstIsRecent(h: History)
    requires h.Observed?
    ensures Recent(h, FirstRecent(h))
  {
    if h.before.Observed? {
      FirstIsRecent(h.before);
    }
  }

  /**
   Minimum and maximum are exact unless the first time since the reset is zero, a positive one follows, and no zero
   comes after that.
   */
  lemma ExactUnlessLeadingZero(h: History, lo: real, hi: real)
    requires NonNegative(h) && Tracked(h, lo, hi)
    ensures Exact(h, lo, hi) <==> !h.Observed? || FirstRecent(h) > 0.0 || AllZero(h) || ZeroAfterPositive(h)
  {
    if h.Observed? {
      FirstIsRecent(h);
      RecentNonNegative(h, FirstRecent(h));
      forall x | Recent(h, x) ensures x >= 0.0 {
        RecentNonNegative(h, x);
      }
    }
  }

  /** With strictly positive times they are exact, and two zeros mean that there was no observation. */
  lemma ExactWhenPositive(h: History, lo: real, hi: real)
    requires NonNegative(h) && Tracked(h, lo, hi) && forall x :: Recent(h, x) ==> x > 0.0
    ensures Exact(h, lo, hi)
    ensures lo == 0.0 && hi == 0.0 <==> !h.Observed?
  {
    if h.Observed? {
      FirstIsRecent(h);
    }
    ExactUnlessLeadingZero(h, lo, hi);
  }

  /** Times 0 and 5: the minimum is reported as 5. */
  lemma LeadingZeroIsLost()
    ensures
      var h := Observed(Observed(Nothing, 0.0), 5.0);
      var (lo, hi) := (NextMin(0.0, 0.0, 0.0), NextMax(0.0, 0.0, 0.0));
      NextMin(lo, hi, 5.0) == 5.0 && !Exact(h, NextMin(lo, hi, 5.0), NextMax(lo, hi, 5.0))
  {
    var h := Observed(Observed(Nothing, 0.0), 5.0);
    assert Recent(h.before, 0.0);
    assert Recent(h, 0.0);
  }

  // ---------------------------------------------------------------- the counters

  /** Calls, total, mean and sum of squared deviations from the mean of everything observed. */
  ghost predicate Summary(h: History, calls: nat, total: real, mean: real, sumVar: real) {
    && calls == Calls(h)
    && total == Total(h)
    && IsMean(mean, calls as real, total)
    && sumVar == Deviations(h, mean)
  }

  lemma SummaryFirst(h: History, total: real, mean: real, sumVar: real, t: real)
    requires Summary(h, 0, total, mean, sumVar)
    ensures Summary(Observed(h, t), 1, total + t, t, sumVar) && !h.Observed?
  {
    NoCalls(h, t);
    NoCalls(h, mean);
  }

  lemma SummaryNext(h: History, calls: nat, total: real, mean: real, sumVar: real, t: real, mean': real)
    requires Summary(h, calls, total, mean, sumVar)
    requires mean' == mean + (t - mean) / (calls + 1) as real
    ensures Summary(Observed(h, t), calls + 1, total + t, mean', sumVar + (t - mean) * (t - mean'))
  {
    SumsNext(h, t, mean);
    WelfordStep(h, mean, t, mean');
  }

  lemma SummaryReset(h: History, calls: nat, total: real, mean: real, sumVar: real)
    requires Summary(h, calls, total, mean, sumVar)
    ensures Summary(MinMaxReset(h), calls, total, mean, sumVar)
  {
  }

  /** The slots of one kind, planning or execution, in the arrays of counters. */
  class KindTimes {
    var calls: nat
    var totalTime: real
    var minTime: real
    var maxTime: real
    var meanTime: real
    var sumVarTime: real
    ghost var history: History

    ghost predicate Valid()
      reads this
    {
      && NonNegative(history)
      && Summary(history, calls, totalTime, meanTime, sumVarTime)
      && Tracked(history, minTime, maxTime)
    }

    constructor ()
      ensures Valid() && history == Nothing
    {
      calls, totalTime, minTime, maxTime, meanTime, sumVarTime := 0, 0.0, 0.0, 0.0, 0.0, 0.0;
      history := Nothing;
    }

    /** Welford's method; the first time is its own mean. */
    method UpdateMean(time: real)
      requires Summary(history, calls, totalTime, meanTime, sumVarTime)
      modifies this`calls, this`totalTime, this`meanTime, this`sumVarTime
      ensures Summary(Observed(history, time), calls, totalTime, meanTime, sumVarTime)
      ensures calls == 1 ==> !history.Observed?
    {
      var oldMean := meanTime;
      if calls == 0 {
        SummaryFirst(history, totalTime, oldMean, sumVarTime, time);
        calls, totalTime, meanTime := 1, totalTime + time, time;
      } else {
        var newMean := oldMean + (time - oldMean) / (calls + 1) as real;
        SummaryNext(history, calls, totalTime, oldMean, sumVarTime, time, newMean);
        calls, totalTime, meanTime := calls + 1, totalTime + time, newMean;
        sumVarTime := sumVarTime + (time - oldMean) * (time - newMean);
      }
    }

    /** After the call was counted.  Two zeros mean that minimum and maximum were reset. */
    method UpdateMinMax(time: real)
      requires NonNegative(history) && Tracked(history, minTime, maxTime) && time >= 0.0
      requires calls == 1 ==> !history.Observed?
      modifies this`minTime, this`maxTime
      ensures Tracked(Observed(history, time), minTime, maxTime)
    {
      TrackedNext(history, minTime, maxTime, time);
      if calls == 1 {
        minTime, maxTime := time, time;
      } else if minTime == 0.0 && maxTime == 0.0 {
        minTime, maxTime := time, time;
      } else {
        if minTime > time {
          minTime := time;
        }
        if maxTime < time {
          maxTime := time;
        }
      }
    }

    method Add(time: real)
      requires Valid() && time >= 0.0
      modifies this
      ensures Valid() && history == Observed(old(history), time)
    {
      UpdateMean(time);
      UpdateMinMax(time);
      history := Observed(history, time);
    }

    method ResetMinMax()
      requires Valid()
      modifies this`minTime, this`maxTime, this`history
      ensures Valid() && history == MinMaxReset(old(history))
    {
      SummaryReset(history, calls, totalTime, meanTime, sumVarTime);
      minTime, maxTime := 0.0, 0.0;
      history := MinMaxReset(history);
    }
  }

  datatype Kind = Plan | Exec

  /** The counters of an entry. */
  class EntryCounters {
    const plan: KindTimes
    const exec: KindTimes
    var usage: real

    ghost predicate Valid()
      reads this, plan, exec
    {
      plan != exec && plan.Valid() && exec.Valid()
    }

    constructor (usage: real)
      ensures Valid() && fresh(plan) && fresh(exec) && this.usage == usage
      ensures plan.history == exec.history == Nothing
    {
      plan := new KindTimes();
      exec := new KindTimes();
      this.usage := usage;
    }

    /** One call; the counters of the other kind do not change.  The first call takes a "sticky" entry's usage away. */
    method Store(kind: Kind, time: real)
      requires Valid() && time >= 0.0
      modifies this, plan, exec
      ensures Valid()
      ensures kind.Plan? ==> plan.history == Observed(old(plan.history), time) && unchanged(exec)
      ensures kind.Exec? ==> exec.history == Observed(old(exec.history), time) && unchanged(plan)
      ensures usage == (if Calls(old(plan.history)) + Calls(old(exec.history)) == 0 then 1.0 else old(usage)) + 1.0
    {
      if plan.calls + exec.calls == 0 {
        usage := 1.0;
      }
      if kind.Plan? {
        plan.Add(time);
      } else {
        exec.Add(time);
      }
      usage := usage + 1.0;
    }

    /** Resets minimum and maximum of both kinds. */
    method ResetMinMax()
      requires Valid()
      modifies plan, exec
      ensures Valid()
      ensures plan.history == MinMaxReset(old(plan.history)) && exec.history == MinMaxReset(old(exec.history))
    {
      plan.ResetMinMax();
      exec.ResetMinMax();
    }
  }
}
