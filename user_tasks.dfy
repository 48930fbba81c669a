/** The periodic task that disables users who have not logged in for a year.
    The clock is a parameter: `now` stands for `datetime.utcnow()`. */
module UserTasks {
  import opened Common
  import opened Calendar
  import opened UserModel
  import opened Users

  /** The query of the task: active users whose last login is at or before the threshold. */
  function Idle(threshold: Instant): Query {
    ActiveIdleSince(threshold)
  }

  /** `disable_inactive_users`: the threshold is `now - 365 days`, which is out
      of `datetime`'s range in the first year; the bulk update writes the
      status `inactive` to every idle active user and reports how many it
      wrote and the threshold's date. */
  method DisableInactiveUsers(store: UserStore, now: Instant) returns (r: Result<Json, Exception>)
    requires store.Valid()
    modifies store
    ensures store.Valid()
    ensures now < Days(365) ==> r == Err(OverflowError) && store.users == old(store.users)
    ensures now >= Days(365) ==>
      var threshold := now - Days(365);
      && store.users == SetStatusWhere(old(store.users), Idle(threshold), INACTIVE)
      && r == Ok(JObj(map[
           "disabled_users" := JInt(Count(old(store.users), Idle(threshold))),
           "inactive_since" := JStr(FormatDate(DateOf(threshold / MICROS_PER_DAY)))]))
  {
    if now < Days(365) {
      return Err(OverflowError);
    }
    var threshold := now - Days(365);
    var count := store.UpdateStatus(Idle(threshold), INACTIVE);
    r := Ok(JObj(map[
      "disabled_users" := JInt(count),
      "inactive_since" := JStr(FormatDate(DateOf(threshold / MICROS_PER_DAY)))]));
  }

  /** A document changes exactly when it is active and its last login is at or
      before the threshold (the boundary included); a changed document is
      `inactive`, outside the status choices. */
  lemma DisabledExactlyIdle(users: seq<User>, threshold: Instant, i: nat)
    requires i < |users|
    ensures var after := SetStatusWhere(users, Idle(threshold), INACTIVE);
      && (after[i] != users[i] <==>
            users[i].status == ACTIVE && users[i].lastLogin.Some? && users[i].lastLogin.value <= threshold)
      && (after[i] != users[i] ==> after[i] == users[i].(status := INACTIVE) && after[i].status !in STATUSES)
  {
    InactiveIsNotAChoice();
  }

  /** No document matches a query once it has been filtered empty. */
  lemma {:induction false} NoneSelected(users: seq<User>, q: Query)
    requires forall i :: 0 <= i < |users| ==> !Selects(q, users[i])
    ensures Count(users, q) == 0
  {
    if users != [] {
      NoneSelected(users[..|users| - 1], q);
    }
  }

  /** For a fixed clock the task is idempotent: a second run disables nobody
      and leaves the collection as the first run left it. */
  lemma DisableIsIdempotent(users: seq<User>, threshold: Instant)
    ensures var once := SetStatusWhere(users, Idle(threshold), INACTIVE);
      && Count(once, Idle(threshold)) == 0
      && SetStatusWhere(once, Idle(threshold), INACTIVE) == once
  {
    var once := SetStatusWhere(users, Idle(threshold), INACTIVE);
    InactiveIsNotAChoice();
    assert forall i :: 0 <= i < |once| ==> !Selects(Idle(threshold), once[i]);
    NoneSelected(once, Idle(threshold));
  }
}
