/** The counter and the dashboard together: every accepted tap calls the
    dashboard's `onDailyCountUpdate`, then `onBatchCommit` for each amount
    the tap reports (src/components/dashboard/zikr-counter.tsx), and the
    dashboard applies them to the current user and the collective total
    (src/app/dashboard/page.tsx). */
module SessionTotals {
  import opened Wrappers
  import opened Users
  import Aggregator
  import ZikrCounter

  /** The batch callback applied to each amount in turn. */
  function CommitAll(u: User, collective: int, amounts: seq<int>): (r: (User, int))
    requires forall i | 0 <= i < |amounts| :: amounts[i] >= 0
    ensures r.1 == collective + ZikrCounter.Sum(amounts)
    ensures Aggregator.StatsOf(r.0).week == Aggregator.StatsOf(u).week + ZikrCounter.Sum(amounts)
    ensures Aggregator.StatsOf(r.0).allTime == Aggregator.StatsOf(u).allTime + ZikrCounter.Sum(amounts)
    ensures Aggregator.StatsOf(r.0).today == Aggregator.StatsOf(u).today
    ensures r.0.lastUpdated == u.lastUpdated
  {
    if amounts == [] then (u, collective)
    else
      var last := amounts[|amounts| - 1];
      var (v, c) := CommitAll(u, collective, amounts[..|amounts| - 1]);
      (Aggregator.CommitBatch(v, last), c + last)
  }

  /** Accepted taps at the given times, from session `s`: the counter's
      state, the current user and the collective total afterwards. */
  function AfterTaps(s: ZikrCounter.Session, u: User, collective: int, times: seq<int>)
    : (r: (ZikrCounter.Session, User, int))
    requires ZikrCounter.ValidSession(s)
    ensures r.0 == ZikrCounter.Run(s, |times|).0
  {
    if times == [] then (s, u, collective)
    else
      var n := |times| - 1;
      var (t, v, c) := AfterTaps(s, u, collective, times[..n]);
      ZikrCounter.RunConserves(s, n);
      ZikrCounter.TapCommits(t);
      var tap := ZikrCounter.Tap(t);
      var (w, d) := CommitAll(Aggregator.RecordTap(v, times[n]), c, tap.commits);
      (tap.next, w, d)
  }

  /** What a run of taps adds on the dashboard: `today` grows by one per
      tap, while the collective total, `week` and `allTime` grow by the
      amounts committed, all by the same sum; the record is stamped with
      the last tap's time. */
  lemma {:induction false} AfterTapsTotals(s: ZikrCounter.Session, u: User, collective: int, times: seq<int>)
    requires ZikrCounter.ValidSession(s)
    ensures var (t, v, c) := AfterTaps(s, u, collective, times);
      var committed := ZikrCounter.Sum(ZikrCounter.Run(s, |times|).1);
      && c == collective + committed
      && Aggregator.StatsOf(v).today == Aggregator.StatsOf(u).today + |times|
      && Aggregator.StatsOf(v).week == Aggregator.StatsOf(u).week + committed
      && Aggregator.StatsOf(v).allTime == Aggregator.StatsOf(u).allTime + committed
      && v.lastUpdated == if times == [] then u.lastUpdated else Some(times[|times| - 1])
  {
    if times != [] {
      var n := |times| - 1;
      AfterTapsTotals(s, u, collective, times[..n]);
      var (t, commits) := ZikrCounter.Run(s, n);
      ZikrCounter.RunConserves(s, n);
      ZikrCounter.TapCommits(t);
      ZikrCounter.SumAppend(commits, ZikrCounter.Tap(t).commits);
    }
  }

  /** Before the target, the shared totals move only in whole batches:
      after `n` taps of a fresh session they have grown by
      `(n / 25) * 25`, while today's count has grown by `n`. */
  lemma SessionBelowTarget(target: int, u: User, collective: int, times: seq<int>)
    requires target > 0 && |times| < target
    ensures var (t, v, c) := AfterTaps(ZikrCounter.Fresh(target), u, collective, times);
      var batched := (|times| / ZikrCounter.BatchSize) * ZikrCounter.BatchSize;
      && c == collective + batched
      && Aggregator.StatsOf(v).week == Aggregator.StatsOf(u).week + batched
      && Aggregator.StatsOf(v).allTime == Aggregator.StatsOf(u).allTime + batched
      && Aggregator.StatsOf(v).today == Aggregator.StatsOf(u).today + |times|
  {
    var n := |times|;
    AfterTapsTotals(ZikrCounter.Fresh(target), u, collective, times);
    ZikrCounter.RunBelowTarget(target, n);
    ZikrCounter.RunConserves(ZikrCounter.Fresh(target), n);
  }

  /** At the target everything counted reaches the shared totals: the
      collective total, `week`, `allTime` and `today` have all grown by
      the target. */
  lemma SessionToTarget(target: int, u: User, collective: int, times: seq<int>)
    requires target > 0 && |times| == target
    ensures var (t, v, c) := AfterTaps(ZikrCounter.Fresh(target), u, collective, times);
      && c == collective + target
      && Aggregator.StatsOf(v).week == Aggregator.StatsOf(u).week + target
      && Aggregator.StatsOf(v).allTime == Aggregator.StatsOf(u).allTime + target
      && Aggregator.StatsOf(v).today == Aggregator.StatsOf(u).today + target
      && t.uncommitted == 0
  {
    AfterTapsTotals(ZikrCounter.Fresh(target), u, collective, times);
    ZikrCounter.RunToTargetCommitsAll(target);
  }
}
