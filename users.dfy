/** The user record of src/lib/types.ts.

    The email is the record's key. `stats` and `lastUpdated` may be absent;
    `lastUpdated` is an ISO 8601 string in the source and a timestamp of
    the `Clock` module here. A present `stats` object whose counters are
    partly missing is read as having those counters at 0, which is how every
    reader in the core treats them (`stats?.today ?? 0`). The profile picture
    is not part of this model. */
module Users {
  import opened Wrappers

  datatype Stats = Stats(today: nat, week: nat, allTime: nat)

  datatype User = User(
    email: string,
    name: string,
    city: string,
    whatsapp: string,
    stats: Option<Stats>,
    lastUpdated: Option<int>)

  const ZeroStats: Stats := Stats(0, 0, 0)

  /** `u.stats?.today ?? 0`: the ranking key of the dashboard leaderboard. */
  function TodayOf(u: User): int {
    u.stats.GetOr(ZeroStats).today
  }

  /** `defaultUser` of the dashboard page: the session's user when the
      logged-in email has no record. Its timestamp is taken when the page
      module is first evaluated. */
  function DefaultUser(bootTime: int): User {
    User("anonymous@example.com", "Anonymous", "Unknown", "", Some(ZeroStats), Some(bootTime))
  }
}
