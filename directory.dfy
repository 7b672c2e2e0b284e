/** The dashboard page's list of user records, keyed by email
    (src/app/dashboard/page.tsx): the lookup of the logged-in user, the
    upsert that writes the current user back, and the count of users
    active today. */
module Directory {
  import opened Wrappers
  import opened Users
  import Clock

  predicate HasEmail(users: seq<User>, email: string) {
    exists i | 0 <= i < |users| :: users[i].email == email
  }

  /** No two records share an email. */
  predicate UniqueEmails(users: seq<User>) {
    forall i, j | 0 <= i < j < |users| :: users[i].email != users[j].email
  }

  /** `users.find(u => u.email === email)`, as the position it finds. */
  function FirstIndexOf(users: seq<User>, email: string): (r: Option<nat>)
    ensures r.None? <==> !HasEmail(users, email)
    ensures r.Some? ==>
      && r.value < |users| && users[r.value].email == email
      && forall j | 0 <= j < r.value :: users[j].email != email
  {
    if users == [] then None
    else if users[0].email == email then Some(0)
    else match FirstIndexOf(users[1..], email)
      case None => None
      case Some(i) => Some(i + 1)
  }

  /** `users.map(x => x.email === u.email ? u : x)`: every position keeps
      its email; those with `u`'s email now hold `u`, the others are as they
      were. */
  function ReplaceByEmail(users: seq<User>, u: User): (r: seq<User>)
    ensures |r| == |users|
    ensures forall i | 0 <= i < |r| :: r[i].email == users[i].email
    ensures forall i | 0 <= i < |r| && users[i].email == u.email :: r[i] == u
    ensures forall i | 0 <= i < |r| && users[i].email != u.email :: r[i] == users[i]
  {
    seq(|users|, i requires 0 <= i < |users| => if users[i].email == u.email then u else users[i])
  }

  /** Write `u` into the list: every record with its email is replaced by
      it, in place; when there is none it is appended. */
  function Upsert(users: seq<User>, u: User): (r: seq<User>)
    ensures |r| == if HasEmail(users, u.email) then |users| else |users| + 1
    ensures u in r
    ensures forall i | 0 <= i < |users| && users[i].email != u.email :: r[i] == users[i]
    ensures forall i | 0 <= i < |r| :: r[i] == u || r[i].email != u.email
    ensures HasEmail(users, u.email) ==>
      forall i | 0 <= i < |users| :: r[i] == (if users[i].email == u.email then u else users[i])
    ensures !HasEmail(users, u.email) ==> r == users + [u]
  {
    if HasEmail(users, u.email) then
      var i :| 0 <= i < |users| && users[i].email == u.email;
      assert ReplaceByEmail(users, u)[i] == u;
      ReplaceByEmail(users, u)
    else users + [u]
  }

  /** Upserting the same record again gives the same list: each run of the
      page's write-back writes the list that the run before it wrote. */
  lemma UpsertIdempotent(users: seq<User>, u: User)
    ensures Upsert(Upsert(users, u), u) == Upsert(users, u)
  {
  }

  /** Upsert keeps emails unique, and leaves `u` the one record with its
      email, so a later lookup by that email finds `u`. */
  lemma UpsertKeepsKey(users: seq<User>, u: User)
    requires UniqueEmails(users)
    ensures var r := Upsert(users, u);
      && UniqueEmails(r)
      && FirstIndexOf(r, u.email).Some?
      && r[FirstIndexOf(r, u.email).value] == u
  {
  }

  /** Whether a record was last updated on the same day as `now`; a record
      without a stamp is not counted. */
  predicate ActiveOn(u: User, now: int) {
    u.lastUpdated.Some? && Clock.SameDay(u.lastUpdated.value, now)
  }

  /** `users.filter(u => u.lastUpdated && isSameDay(u.lastUpdated, now)).length`. */
  function CountActiveToday(users: seq<User>, now: int): (r: nat)
    ensures r <= |users|
  {
    if users == [] then 0
    else
      CountActiveToday(users[..|users| - 1], now)
      + (if ActiveOn(users[|users| - 1], now) then 1 else 0)
  }

  /** The positions of the records active today. */
  function ActivePositions(users: seq<User>, now: int): set<nat> {
    set i: nat | i < |users| && ActiveOn(users[i], now)
  }

  /** The count is the number of records active today. */
  lemma {:induction false} CountActiveTodayCounts(users: seq<User>, now: int)
    ensures CountActiveToday(users, now) == |ActivePositions(users, now)|
  {
    if users != [] {
      var n := |users| - 1;
      var front := users[..n];
      CountActiveTodayCounts(front, now);
      var last: set<nat> := if ActiveOn(users[n], now) then {n} else {};
      assert ActivePositions(users, now) == ActivePositions(front, now) + last by {
        forall i: nat | i < n ensures front[i] == users[i] { }
      }
      assert ActivePositions(front, now) !! last;
    }
  }
}
