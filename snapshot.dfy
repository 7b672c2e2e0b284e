/** The hourly leaderboard snapshot of the dashboard page
    (src/app/dashboard/page.tsx): when the ranking is recomputed, and what
    it is. Between refreshes the page shows the stored ranking unchanged. */
module Snapshot {
  import opened Wrappers
  import opened Users
  import Clock
  import StableSort

  /** LEADERBOARD_UPDATE_INTERVAL: one hour in milliseconds. */
  const UpdateIntervalMillis: int := 60 * 60 * 1000

  /** On page load the ranking is recomputed when there is no stored
      snapshot time, or when strictly more than an hour has passed: exactly
      when `now` is past the next-update time the page displays. */
  function ShouldRefreshOnLoad(stamp: Option<int>, now: int): (r: bool)
    ensures r <==> stamp.None? || now > NextUpdate(stamp.value)
  {
    stamp.None? || now - stamp.value > UpdateIntervalMillis
  }

  /** The once-a-minute timer recomputes only when a snapshot time exists
      and strictly more than an hour has passed since it: it is the load's
      test restricted to an existing snapshot. */
  function ShouldRefreshOnTick(stamp: Option<int>, now: int): (r: bool)
    ensures r <==> stamp.Some? && ShouldRefreshOnLoad(stamp, now)
    ensures r ==> now > NextUpdate(stamp.value)
  {
    stamp.Some? && now - stamp.value > UpdateIntervalMillis
  }

  /** The time shown for the next refresh: one hour after the snapshot. */
  function NextUpdate(stamp: int): (r: int)
    ensures r - stamp == UpdateIntervalMillis
  {
    Clock.AddMinutes(stamp, 60)
  }

  /** The ranking: by today's count, highest first, ties in list order. */
  function Rank(users: seq<User>): (r: seq<User>)
    ensures multiset(r) == multiset(users)
    ensures StableSort.NonIncreasing(r, TodayOf)
    ensures forall k :: StableSort.WithKey(r, TodayOf, k) == StableSort.WithKey(users, TodayOf, k)
  {
    StableSort.SortDescIsStableSort(users, TodayOf);
    StableSort.SortDesc(users, TodayOf)
  }

  /** A snapshot never counts as stale within the hour after it was taken,
      and once stale it stays stale as time goes on. */
  lemma RefreshThrottled(stamp: int, now: int, later: int)
    requires now <= later
    ensures stamp <= now <= NextUpdate(stamp) ==> !ShouldRefreshOnLoad(Some(stamp), now)
    ensures ShouldRefreshOnTick(Some(stamp), now) ==> ShouldRefreshOnTick(Some(stamp), later)
  {
  }

  /** Any stable descending ordering by today's count is this ranking. */
  lemma RankIsTheStableSort(users: seq<User>, r: seq<User>)
    requires StableSort.NonIncreasing(r, TodayOf)
    requires forall k :: StableSort.WithKey(r, TodayOf, k) == StableSort.WithKey(users, TodayOf, k)
    ensures r == Rank(users)
  {
    StableSort.StableSortIsSortDesc(users, r, TodayOf);
  }
}
