/** The daily leaderboard flow (src/ai/flows/generate-daily-leaderboard.ts):
    the users sorted by count, highest first, and the first three kept. */
module DailyLeaderboardFlow {
  import opened FlowSchema
  import StableSort

  /** `generateDailyLeaderboardFlow({users})`, returning its
      `leaderboard`: at most three users, a selection of the input with
      none left out outranking one kept, highest count first, ties in
      input order. */
  function GenerateDailyLeaderboard(users: seq<RankedUser>): (leaderboard: seq<RankedUser>)
    ensures |leaderboard| == if |users| < 3 then |users| else 3
    ensures leaderboard == StableSort.SortDesc(users, ZikrCountOf)[..|leaderboard|]
    ensures StableSort.NonIncreasing(leaderboard, ZikrCountOf)
    ensures multiset(leaderboard) <= multiset(users)
    ensures forall x, y | x in leaderboard && y in multiset(users) - multiset(leaderboard) ::
      ZikrCountOf(y) <= ZikrCountOf(x)
    ensures forall k ::
      StableSort.WithKey(leaderboard, ZikrCountOf, k) <= StableSort.WithKey(users, ZikrCountOf, k)
  {
    StableSort.TopSelects(users, ZikrCountOf, 3);
    StableSort.Top(users, ZikrCountOf, 3)
  }
}
