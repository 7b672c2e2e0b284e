/** The state of the dashboard page (src/app/dashboard/page.tsx) and the
    browser storage it reads and writes.

    Each method is one callback or effect of the page with its state
    updates applied: the load effect, the once-a-minute timer, the two
    callbacks the counter calls, and the effect that writes the current
    user back into the list and into storage. A single `now` stands for
    the page's reads of the clock within one callback. */
module DashboardPage {
  import opened Wrappers
  import opened Users
  import Aggregator
  import Directory
  import Snapshot

  /** What the page keeps in localStorage: the logged-in email, the user
      list, the collective total, and the leaderboard snapshot with its
      time. */
  datatype Store = Store(
    loggedInUser: Option<string>,
    users: seq<User>,
    collectiveAllTimeCount: int,
    leaderboardUsers: seq<User>,
    leaderboardLastUpdated: Option<int>)

  /** How the load effect ends: sent back to the login page, stopped by
      the TypeError of a record without stats, or loaded. */
  datatype LoadOutcome = Redirected | Failed | Loaded

  /** The user part of the load effect: the first record with the
      logged-in email, reset for the day and week in place in the list, or
      the default user when there is none; `None` when the reset throws. */
  function ResolveUser(users: seq<User>, email: string, now: int, bootTime: int)
    : (r: Option<(seq<User>, User)>)
    ensures var i := Directory.FirstIndexOf(users, email);
      && (r.None? <==> i.Some? && Aggregator.ResetOnLoad(users[i.value], now).None?)
      && (r.Some? && i.None? ==> r.value == (users, DefaultUser(bootTime)))
      && (r.Some? && i.Some? ==>
            && r.value.1 == Aggregator.ResetOnLoad(users[i.value], now).value
            && r.value.0 == users[i.value := r.value.1])
  {
    match Directory.FirstIndexOf(users, email)
    case None => Some((users, DefaultUser(bootTime)))
    case Some(i) =>
      match Aggregator.ResetOnLoad(users[i], now)
      case None => None
      case Some(user) => Some((users[i := user], user))
  }

  /** How the load effect serves the leaderboard from the stored snapshot
      `before`: when it is missing or over an hour old, the ranking of
      `users` is shown and stored with the time `now`, and the next update
      is an hour later; otherwise the stored ranking is shown, storage is
      unchanged, and the next update is an hour after the stored time. */
  predicate ServedOnLoad(before: Store, users: seq<User>, now: int,
                         after: Store, shown: seq<User>, next: Option<int>) {
    if Snapshot.ShouldRefreshOnLoad(before.leaderboardLastUpdated, now) then
      && shown == Snapshot.Rank(users)
      && after == before.(leaderboardUsers := shown, leaderboardLastUpdated := Some(now))
      && next == Some(Snapshot.NextUpdate(now))
    else
      && shown == before.leaderboardUsers
      && after == before
      && next == Some(Snapshot.NextUpdate(before.leaderboardLastUpdated.value))
  }

  class Page {
    var store: Store
    var loading: bool
    var currentUser: User
    var allUsers: seq<User>
    var leaderboardUsers: seq<User>
    var collectiveAllTimeCount: int
    var usersActiveToday: nat
    var nextLeaderboardUpdate: Option<int>
    /** When the page module was evaluated: the stamp of `defaultUser`. */
    const bootTime: int

    /** The count of active users never exceeds the number of records. */
    predicate Valid()
      reads this
    {
      usersActiveToday <= |allUsers|
    }

    constructor(bootTime: int, store: Store)
      ensures Valid()
      ensures this.bootTime == bootTime && this.store == store && loading
      ensures currentUser == DefaultUser(bootTime) && allUsers == [] && leaderboardUsers == []
      ensures collectiveAllTimeCount == 0 && usersActiveToday == 0 && nextLeaderboardUpdate.None?
    {
      this.bootTime := bootTime;
      this.store := store;
      loading := true;
      currentUser := DefaultUser(bootTime);
      allUsers := [];
      leaderboardUsers := [];
      collectiveAllTimeCount := 0;
      usersActiveToday := 0;
      nextLeaderboardUpdate := None;
    }

    /** `updateLeaderboard(users)`: rank the list, store the ranking and
        its time, and show when the next refresh is due. */
    method UpdateLeaderboard(users: seq<User>, now: int)
      modifies this`leaderboardUsers, this`store, this`nextLeaderboardUpdate
      ensures leaderboardUsers == Snapshot.Rank(users)
      ensures store == old(store).(leaderboardUsers := Snapshot.Rank(users), leaderboardLastUpdated := Some(now))
      ensures nextLeaderboardUpdate == Some(Snapshot.NextUpdate(now))
    {
      var sortedUsers := Snapshot.Rank(users);
      leaderboardUsers := sortedUsers;
      store := store.(leaderboardUsers := sortedUsers, leaderboardLastUpdated := Some(now));
      nextLeaderboardUpdate := Some(Snapshot.NextUpdate(now));
    }

    /** The leaderboard part of the load effect: recompute when the
        stored snapshot is missing or over an hour old, otherwise show the
        stored one. */
    method ServeLeaderboard(users: seq<User>, now: int)
      modifies this`leaderboardUsers, this`store, this`nextLeaderboardUpdate
      ensures ServedOnLoad(old(store), users, now, store, leaderboardUsers, nextLeaderboardUpdate)
    {
      var stamp := store.leaderboardLastUpdated;
      if Snapshot.ShouldRefreshOnLoad(stamp, now) {
        UpdateLeaderboard(users, now);
      } else {
        leaderboardUsers := store.leaderboardUsers;
        nextLeaderboardUpdate := Some(Snapshot.NextUpdate(stamp.value));
      }
    }

    /** The load effect: find the logged-in user, apply the day/week reset
        to that record, count today's active users, and either recompute
        the leaderboard or show the stored snapshot. */
    method Load(now: int) returns (outcome: LoadOutcome)
      requires Valid()
      modifies this
      ensures Valid()
      ensures outcome == Redirected <==> old(store).loggedInUser.None?
      ensures outcome == Failed <==>
        && old(store).loggedInUser.Some?
        && ResolveUser(old(store).users, old(store).loggedInUser.value, now, bootTime).None?
      ensures outcome != Loaded ==> unchanged(this)
      ensures outcome == Loaded ==>
        && (allUsers, currentUser)
           == ResolveUser(old(store).users, old(store).loggedInUser.value, now, bootTime).value
        && collectiveAllTimeCount == old(store).collectiveAllTimeCount
        && usersActiveToday == Directory.CountActiveToday(allUsers, now)
        && !loading
      ensures outcome == Loaded ==>
        ServedOnLoad(old(store), allUsers, now, store, leaderboardUsers, nextLeaderboardUpdate)
    {
      if store.loggedInUser.None? {
        return Redirected;
      }
      var resolved := ResolveUser(store.users, store.loggedInUser.value, now, bootTime);
      if resolved.None? {
        return Failed;
      }
      var (storedUsers, user) := resolved.value;
      allUsers := storedUsers;
      currentUser := user;
      collectiveAllTimeCount := store.collectiveAllTimeCount;
      usersActiveToday := Directory.CountActiveToday(storedUsers, now);
      ServeLeaderboard(storedUsers, now);
      loading := false;
      return Loaded;
    }

    /** The once-a-minute timer: recompute from the stored user list when
        the snapshot is more than an hour old, otherwise change nothing. */
    method Tick(now: int)
      modifies this`leaderboardUsers, this`store, this`nextLeaderboardUpdate
      ensures Snapshot.ShouldRefreshOnTick(old(store).leaderboardLastUpdated, now) ==>
        && leaderboardUsers == Snapshot.Rank(old(store).users)
        && store == old(store).(leaderboardUsers := leaderboardUsers, leaderboardLastUpdated := Some(now))
        && nextLeaderboardUpdate == Some(Snapshot.NextUpdate(now))
      ensures !Snapshot.ShouldRefreshOnTick(old(store).leaderboardLastUpdated, now) ==>
        && leaderboardUsers == old(leaderboardUsers)
        && store == old(store)
        && nextLeaderboardUpdate == old(nextLeaderboardUpdate)
    {
      var lastUpdated := store.leaderboardLastUpdated;
      if Snapshot.ShouldRefreshOnTick(lastUpdated, now) {
        UpdateLeaderboard(store.users, now);
      }
    }

    /** `handleDailyCountUpdate`: one more for today on the current user,
        written into the in-memory list at once; the leaderboard and the
        stored data are not touched. */
    method HandleDailyCountUpdate(now: int)
      requires Valid()
      modifies this`currentUser, this`allUsers
      ensures Valid()
      ensures currentUser == Aggregator.RecordTap(old(currentUser), now)
      ensures allUsers == Directory.Upsert(old(allUsers), currentUser)
    {
      var updatedUser := Aggregator.RecordTap(currentUser, now);
      allUsers := Directory.Upsert(allUsers, updatedUser);
      currentUser := updatedUser;
    }

    /** `handleBatchCommit(n)`: the collective total and the current
        user's week and all-time counts grow by the batch. */
    method HandleBatchCommit(n: nat)
      modifies this`collectiveAllTimeCount, this`currentUser
      ensures collectiveAllTimeCount == old(collectiveAllTimeCount) + n
      ensures currentUser == Aggregator.CommitBatch(old(currentUser), n)
    {
      collectiveAllTimeCount := collectiveAllTimeCount + n;
      currentUser := Aggregator.CommitBatch(currentUser, n);
    }

    /** The write-back effect: once loaded, upsert the current user into
        the list, store the list and the collective total, and recount
        today's active users. The leaderboard is not touched. */
    method PersistEffect(now: int)
      requires Valid()
      modifies this`allUsers, this`store, this`usersActiveToday
      ensures Valid()
      ensures old(loading) ==> unchanged(this)
      ensures !old(loading) ==>
        && allUsers == Directory.Upsert(old(allUsers), currentUser)
        && store == old(store).(users := allUsers, collectiveAllTimeCount := collectiveAllTimeCount)
        && usersActiveToday == Directory.CountActiveToday(allUsers, now)
        && currentUser in store.users
    {
      if !loading {
        var updatedUsers := Directory.Upsert(allUsers, currentUser);
        allUsers := updatedUsers;
        store := store.(users := updatedUsers, collectiveAllTimeCount := collectiveAllTimeCount);
        usersActiveToday := Directory.CountActiveToday(updatedUsers, now);
      }
    }
  }
}
