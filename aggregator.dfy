/** How the dashboard page of src/app/dashboard/page.tsx updates one user
    record: the day/week reset when the page loads, the live `today`
    increment on every tap, and the batched `week`/`allTime` increment. */
module Aggregator {
  import opened Wrappers
  import opened Users
  import Clock

  /** The counters of a record, a missing `stats` read as all zero. */
  function StatsOf(u: User): Stats {
    u.stats.GetOr(ZeroStats)
  }

  /** The load-time check: `today` is zeroed when `now` is on another day
      than the last update, `week` when it is in another Monday-started
      week, both judged against the stamp as it was before; `allTime` is
      kept and the stamp becomes `now`. A missing stamp reads as `now`.
      The source writes through `user.stats!`, so a record without stats
      that needs a reset makes it throw a TypeError: that is `None`. */
  function ResetOnLoad(u: User, now: int): (r: Option<User>)
    ensures r.None? <==> u.stats.None? && !Clock.SameDay(now, u.lastUpdated.GetOr(now))
    ensures r.Some? ==>
      && r.value.lastUpdated == Some(now)
      && r.value.(stats := u.stats, lastUpdated := u.lastUpdated) == u
      && r.value.stats.Some? == u.stats.Some?
      && StatsOf(r.value).allTime == StatsOf(u).allTime
      && (StatsOf(r.value).today == 0 || StatsOf(r.value).today == StatsOf(u).today)
      && (StatsOf(r.value).week == 0 || StatsOf(r.value).week == StatsOf(u).week)
  {
    var last := u.lastUpdated.GetOr(now);
    var sameDay := Clock.SameDay(now, last);
    var sameWeek := Clock.SameWeek(now, last);
    Clock.SameWeekIsNear(now, last);
    match u.stats
    case None =>
      if sameDay && sameWeek then Some(u.(lastUpdated := Some(now))) else None
    case Some(st) =>
      var today := if sameDay then st.today else 0;
      var week := if sameWeek then st.week else 0;
      Some(u.(stats := Some(Stats(today, week, st.allTime)), lastUpdated := Some(now)))
  }

  /** Which counters the reset zeroes: `today` exactly when the day has
      changed, `week` exactly when the week has changed; `week` is never
      zeroed while `today` survives. */
  lemma ResetOnLoadZeroes(u: User, now: int)
    requires u.stats.Some?
    ensures var r := ResetOnLoad(u, now);
      var last := u.lastUpdated.GetOr(now);
      && r.Some?
      && StatsOf(r.value).today == (if Clock.SameDay(now, last) then StatsOf(u).today else 0)
      && StatsOf(r.value).week == (if Clock.SameWeek(now, last) then StatsOf(u).week else 0)
      && (Clock.SameDay(now, last) ==> StatsOf(r.value) == StatsOf(u))
  {
  }

  /** A record loaded twice at the same instant is reset once: the second
      reset finds its stamp at `now` and changes nothing. */
  lemma ResetOnLoadIdempotent(u: User, now: int)
    requires ResetOnLoad(u, now).Some?
    ensures ResetOnLoad(ResetOnLoad(u, now).value, now) == ResetOnLoad(u, now)
  {
  }

  /** A record without a stamp is read as updated now: nothing is reset. */
  lemma ResetOnLoadWithoutStamp(u: User, now: int)
    requires u.lastUpdated.None?
    ensures ResetOnLoad(u, now) == Some(u.(lastUpdated := Some(now)))
  {
  }

  /** `handleDailyCountUpdate`'s new record: one more for today, stamped
      `now`, `week` and `allTime` as they were. */
  function RecordTap(u: User, now: int): (r: User)
    ensures StatsOf(r).today == StatsOf(u).today + 1
    ensures StatsOf(r).week == StatsOf(u).week && StatsOf(r).allTime == StatsOf(u).allTime
    ensures r.lastUpdated == Some(now) && r.stats.Some?
    ensures r.(stats := u.stats, lastUpdated := u.lastUpdated) == u
  {
    var st := StatsOf(u);
    u.(stats := Some(st.(today := st.today + 1)), lastUpdated := Some(now))
  }

  /** `handleBatchCommit(n)` on the current user: `n` more for the week
      and for all time; `today` and the stamp as they were. */
  function CommitBatch(u: User, n: nat): (r: User)
    ensures StatsOf(r).week == StatsOf(u).week + n
    ensures StatsOf(r).allTime == StatsOf(u).allTime + n
    ensures StatsOf(r).today == StatsOf(u).today && r.stats.Some?
    ensures r.(stats := u.stats) == u
  {
    var st := StatsOf(u);
    u.(stats := Some(st.(week := st.week + n, allTime := st.allTime + n)))
  }
}
