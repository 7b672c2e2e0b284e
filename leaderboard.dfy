/** The "Daily Top Readers" card (src/components/dashboard/leaderboard.tsx):
    it sorts the users it is given by today's count, highest first, and
    shows the first three. */
module Leaderboard {
  import opened Users
  import StableSort
  import Snapshot

  /** The three users the card shows, in rank order. */
  function Top3Users(users: seq<User>): (r: seq<User>)
    ensures |r| == if |users| < 3 then |users| else 3
    ensures r == Snapshot.Rank(users)[..|r|]
    ensures StableSort.NonIncreasing(r, TodayOf)
    ensures multiset(r) <= multiset(users)
    ensures forall x, y | x in r && y in multiset(users) - multiset(r) :: TodayOf(y) <= TodayOf(x)
    ensures forall k :: StableSort.WithKey(r, TodayOf, k) <= StableSort.WithKey(users, TodayOf, k)
  {
    StableSort.TopSelects(users, TodayOf, 3);
    StableSort.Top(users, TodayOf, 3)
  }

  /** The dashboard hands the card its ranked snapshot; sorting a ranked
      list again changes nothing, so the card shows the first three of
      the snapshot as they are. */
  lemma {:induction false} RankIsIdempotent(users: seq<User>)
    ensures Snapshot.Rank(Snapshot.Rank(users)) == Snapshot.Rank(users)
    ensures Top3Users(Snapshot.Rank(users)) == Top3Users(users)
  {
    var r := Snapshot.Rank(users);
    Snapshot.RankIsTheStableSort(r, r);
  }
}
