/** The `users` collection as the handlers and tasks use it: filtered
    queries in the collection's natural order (insertion order), `save()`
    with its validation and unique indexes, the single-document `modify()` /
    `update()` by `_id`, the balance operations of `User`, and the bulk
    `update()` of a query set. */
module Users {

  import opened Common
  import opened Calendar
  import opened UserModel

  // Queries.

  /** The filters `User.objects(...)` is called with. */
  datatype Query =
    | ById(id: string)
    | ByPhone(phone: string)
    | ActiveByPhone(phone: string)
    | ByToken(token: string)
    | Active
    /** `last_login__lte=threshold, status='active'`: a missing `last_login`
        does not compare with a date, so it never matches. */
    | ActiveIdleSince(threshold: Instant)
    /** A filter value that is a document of query operators (`{"$ne": ""}`,
        say), which mongoengine passes to the server unchanged; `selects` is
        the server's evaluation of it on each document. */
    | Matching(selects: User -> bool)

  predicate Selects(q: Query, u: User) {
    match q
    case ById(id) => u.id == id
    case ByPhone(phone) => u.phoneNumber == phone
    case ActiveByPhone(phone) => u.phoneNumber == phone && u.status == ACTIVE
    case ByToken(token) => u.accessToken == token
    case Active => u.status == ACTIVE
    case ActiveIdleSince(threshold) => u.status == ACTIVE && u.lastLogin.Some? && u.lastLogin.value <= threshold
    case Matching(selects) => selects(u)
  }

  /** `.first()`: the position of the first selected document. */
  function First(users: seq<User>, q: Query): (r: Option<nat>)
    ensures r.Some? ==> r.value < |users| && Selects(q, users[r.value])
    ensures r.Some? ==> forall j :: 0 <= j < r.value ==> !Selects(q, users[j])
    ensures r.None? <==> forall j :: 0 <= j < |users| ==> !Selects(q, users[j])
  {
    if users == [] then None
    else if Selects(q, users[0]) then Some(0)
    else
      var r := First(users[1..], q);
      assert forall j :: 1 <= j < |users| ==> users[j] == users[1..][j - 1];
      if r.Some? then Some(r.value + 1) else None
  }

  /** The selected documents, in order: the query set itself. */
  function Filter(users: seq<User>, q: Query): (r: seq<User>)
    ensures |r| <= |users|
  {
    if users == [] then []
    else Filter(users[..|users| - 1], q) + (if Selects(q, users[|users| - 1]) then [users[|users| - 1]] else [])
  }

  /** The query set holds exactly the selected documents. */
  lemma {:induction false} FilterMembers(users: seq<User>, q: Query)
    ensures forall v :: v in Filter(users, q) <==> v in users && Selects(q, v)
  {
    if users != [] {
      var init := users[..|users| - 1];
      FilterMembers(init, q);
      assert users == init + [users[|users| - 1]];
    }
  }

  /** `.count()`. */
  function Count(users: seq<User>, q: Query): nat {
    |Filter(users, q)|
  }

  // Unique indexes.

  /** Two documents that the unique indexes on `_id`, `phone_number` and
      `access_token` allow side by side. */
  predicate Apart(a: User, b: User) {
    a.id != b.id && a.phoneNumber != b.phoneNumber && a.accessToken != b.accessToken
  }

  predicate Unique(users: seq<User>) {
    forall i, j :: 0 <= i < j < |users| ==> Apart(users[i], users[j])
  }

  /** What every document has once `save()` has accepted it: a digest for a
      password and a phone number. */
  predicate Stored(u: User) {
    u.password.Digest? && u.phoneNumber != ""
  }

  /** A document, other than the one with `u`'s id, that `u` would collide
      with on the phone number or access token index. */
  predicate Clashes(users: seq<User>, u: User) {
    exists i :: 0 <= i < |users| && users[i].id != u.id
      && (users[i].phoneNumber == u.phoneNumber || users[i].accessToken == u.accessToken)
  }

  /** Under the unique indexes a query on a unique field selects at most one
      document, so `.get()` never finds several. */
  lemma {:induction false} UniqueSelectsOne(users: seq<User>, q: Query, i: nat, j: nat)
    requires Unique(users) && (q.ById? || q.ByPhone? || q.ActiveByPhone? || q.ByToken?)
    requires i < |users| && j < |users| && Selects(q, users[i]) && Selects(q, users[j])
    ensures i == j
  {
  }

  /** `.first()` is determined by where the first selected document is. */
  lemma FirstIs(users: seq<User>, q: Query, k: nat)
    requires k < |users| && Selects(q, users[k])
    requires forall j :: 0 <= j < k ==> !Selects(q, users[j])
    ensures First(users, q) == Some(k)
  {
    assert First(users, q).Some?;
  }

  /** On a unique field, the document found is the one holding the value. */
  lemma FirstOfUnique(users: seq<User>, q: Query, k: nat)
    requires Unique(users) && (q.ById? || q.ByPhone? || q.ActiveByPhone? || q.ByToken?)
    requires k < |users| && Selects(q, users[k])
    ensures First(users, q) == Some(k)
  {
    forall j | 0 <= j < k
      ensures !Selects(q, users[j])
    {
      if Selects(q, users[j]) {
        UniqueSelectsOne(users, q, j, k);
      }
    }
    FirstIs(users, q, k);
  }

  /** `.get()`: the one selected document; `DoesNotExist` when there is none
      and `MultipleObjectsReturned` when there are several. */
  function Get(users: seq<User>, q: Query): (r: Result<nat, Exception>)
    ensures r.Ok? ==> r.value < |users| && Selects(q, users[r.value])
    ensures r.Ok? ==> forall j :: 0 <= j < |users| && j != r.value ==> !Selects(q, users[j])
    ensures r == Err(DoesNotExist) <==> forall j :: 0 <= j < |users| ==> !Selects(q, users[j])
    ensures r.Err? && r.error != DoesNotExist ==>
      (r.error == MultipleObjectsReturned
       && exists i, j :: 0 <= i < j < |users| && Selects(q, users[i]) && Selects(q, users[j]))
  {
    match First(users, q)
    case None => Err(DoesNotExist)
    case Some(k) =>
      var rest := First(users[k + 1..], q);
      assert forall j :: k < j < |users| ==> users[j] == users[k + 1..][j - k - 1];
      if rest.Some? then
        assert Selects(q, users[k + 1 + rest.value]);
        Err(MultipleObjectsReturned)
      else Ok(k)
  }

  /** On a unique field `.get()` finds the document holding the value. */
  lemma GetOfUnique(users: seq<User>, q: Query, k: nat)
    requires Unique(users) && (q.ById? || q.ByPhone? || q.ActiveByPhone? || q.ByToken?)
    requires k < |users| && Selects(q, users[k])
    ensures Get(users, q) == Ok(k)
  {
  }

  // Writes.

  /** Where `save()` leaves the collection: the document replaces the one
      with its id, or is appended when there is none. */
  function Upsert(users: seq<User>, u: User): (r: seq<User>)
    ensures |r| == if First(users, ById(u.id)).Some? then |users| else |users| + 1
    ensures forall i :: 0 <= i < |users| && users[i].id != u.id ==> r[i] == users[i]
    ensures First(r, ById(u.id)).Some? && r[First(r, ById(u.id)).value] == u
  {
    var k := First(users, ById(u.id));
    if k.Some? then
      var r := users[k.value := u];
      assert forall j :: 0 <= j < k.value ==> r[j] == users[j];
      FirstIs(r, ById(u.id), k.value);
      r
    else
      var r := users + [u];
      assert forall j :: 0 <= j < |users| ==> r[j] == users[j];
      FirstIs(r, ById(u.id), |users|);
      r
  }

  /** A save the indexes accept keeps them satisfied. */
  lemma UpsertKeepsUnique(users: seq<User>, u: User)
    requires Unique(users) && !Clashes(users, u)
    ensures Unique(Upsert(users, u))
  {
    var r := Upsert(users, u);
    forall i, j | 0 <= i < j < |r|
      ensures Apart(r[i], r[j])
    {
      if r[i] != u && r[j] != u {
        UpsertOld(users, u, i);
        UpsertOld(users, u, j);
      } else if r[i] == u {
        UpsertOther(users, u, j);
      } else {
        UpsertOther(users, u, i);
      }
    }
  }

  /** A position of the new collection that does not hold the saved document
      holds the old document there. */
  lemma UpsertOld(users: seq<User>, u: User, i: nat)
    requires i < |Upsert(users, u)| && Upsert(users, u)[i] != u
    ensures i < |users| && Upsert(users, u)[i] == users[i]
  {
  }

  /** Any other document of the new collection is an old one with another id. */
  lemma UpsertOther(users: seq<User>, u: User, j: nat)
    requires Unique(users)
    requires j < |Upsert(users, u)| && First(Upsert(users, u), ById(u.id)) != Some(j)
    ensures j < |users| && Upsert(users, u)[j] == users[j] && users[j].id != u.id
  {
    var k := First(users, ById(u.id));
    if k.Some? && users[j].id == u.id {
      UniqueSelectsOne(users, ById(u.id), j, k.value);
    }
  }

  /** `user.save()`: `clean()` puts the digest `hashpw` computes in place of
      a plain password, validation runs, and the unique indexes are checked;
      only a document that passes all three is written, replacing the one
      with its id. The first component is the exception raised, if any. */
  function SaveOutcome(users: seq<User>, u: User, hashpw: string -> string, checkUrl: string -> Option<string>): (o: (Option<Exception>, seq<User>))
    ensures o.0.None? <==> WellFormed(Clean(u, hashpw), checkUrl) && !Clashes(users, Clean(u, hashpw))
    ensures o.0.None? ==> o.1 == Upsert(users, Clean(u, hashpw))
    ensures o.0.Some? ==> o.1 == users
    ensures Validate(Clean(u, hashpw), checkUrl).Some? ==> o.0 == Validate(Clean(u, hashpw), checkUrl)
    ensures Validate(Clean(u, hashpw), checkUrl).None? && o.0.Some? ==> o.0 == Some(NotUniqueError)
  {
    var c := Clean(u, hashpw);
    ValidateExactly(c, checkUrl);
    var err := Validate(c, checkUrl);
    if err.Some? then (err, users)
    else if Clashes(users, c) then (Some(NotUniqueError), users)
    else (None, Upsert(users, c))
  }

  /** A save keeps the indexes satisfied and stores only saved documents. */
  lemma SaveKeepsValid(users: seq<User>, u: User, hashpw: string -> string, checkUrl: string -> Option<string>)
    requires Unique(users) && forall i :: 0 <= i < |users| ==> Stored(users[i])
    ensures var r := SaveOutcome(users, u, hashpw, checkUrl).1;
      Unique(r) && forall i :: 0 <= i < |r| ==> Stored(r[i])
  {
    var c := Clean(u, hashpw);
    if SaveOutcome(users, u, hashpw, checkUrl).0.None? {
      UpsertKeepsUnique(users, c);
      var r := Upsert(users, c);
      forall i | 0 <= i < |r|
        ensures Stored(r[i])
      {
        if r[i] != c {
          UpsertOld(users, c, i);
        }
      }
    }
  }

  /** The single-document changes the handlers and the balance methods make
      with `modify()` / `update()`. */
  datatype Change =
    | SetLastLogin(at: Instant)
    | SetStatus(status: string)
    | SetDetails(details: UserDetails)
    /** `inc__balance__amount=delta`, and `set__balance__last_topup` when given. */
    | IncBalance(delta: int, topup: Option<Instant>)

  /** What mongoengine's `prepare_query_value` refuses while it builds an
      update: it runs each set field's own `validate`, which for a string
      checks `max_length` (but not `choices` nor a `validation=` callable).
      Of the modelled changes only a first or last name over 100 characters
      is refused; a date, a status text and an integer always pass. */
  function ChangeError(c: Change): (e: Option<Exception>)
    ensures !c.SetDetails? ==> e.None?
    ensures e.Some? ==> e.value == ValidationError(TOO_LONG_MSG)
    ensures c.SetDetails? && c.details.firstName.Some? && c.details.lastName.Some? ==>
      (e.None? <==> NameErrors(c.details.firstName) + NameErrors(c.details.lastName) == [])
  {
    if c.SetDetails? && c.details.firstName.Some? && c.details.lastName.Some?
       && (|c.details.firstName.value| > NAME_MAX || |c.details.lastName.value| > NAME_MAX)
    then Some(ValidationError(TOO_LONG_MSG))
    else None
  }

  /** A change touches none of the indexed fields and not the password. */
  function Apply(u: User, c: Change): (v: User)
    ensures v.id == u.id && v.phoneNumber == u.phoneNumber && v.accessToken == u.accessToken
    ensures v.password == u.password
  {
    match c
    case SetLastLogin(at) => u.(lastLogin := Some(at))
    case SetStatus(s) => u.(status := s)
    case SetDetails(d) => u.(details := d)
    case IncBalance(delta, topup) =>
      u.(balance := Balance(u.balance.amount + delta, if topup.Some? then topup else u.balance.lastTopup))
  }

  /** The collection after a change to the document with id `id`; without
      such a document nothing changes. */
  function Modified(users: seq<User>, id: string, c: Change): (r: seq<User>)
    ensures |r| == |users|
    ensures forall i :: 0 <= i < |users| && users[i].id != id ==> r[i] == users[i]
    ensures forall i :: 0 <= i < |users| && users[i].id == id && First(users, ById(id)) == Some(i) ==> r[i] == Apply(users[i], c)
    ensures First(users, ById(id)).None? ==> r == users
  {
    var k := First(users, ById(id));
    if k.Some? then users[k.value := Apply(users[k.value], c)] else users
  }

  lemma ModifiedKeepsUnique(users: seq<User>, id: string, c: Change)
    requires Unique(users) && (forall i :: 0 <= i < |users| ==> Stored(users[i]))
    ensures Unique(Modified(users, id, c))
    ensures forall i :: 0 <= i < |users| ==> Stored(Modified(users, id, c)[i])
  {
    var r := Modified(users, id, c);
    assert forall i, j :: 0 <= i < j < |r| ==> Apart(r[i], r[j]) by {
      forall i, j | 0 <= i < j < |r|
        ensures Apart(r[i], r[j])
      {
        assert Apart(users[i], users[j]);
      }
    }
  }

  /** Topping up an amount and then spending it gives the balance back; only
      the date of the top-up remains. */
  lemma TopupThenSpend(users: seq<User>, id: string, amount: int, now: Instant)
    requires Unique(users)
    ensures var r := Modified(Modified(users, id, IncBalance(amount, Some(now))), id, IncBalance(-amount, None));
      && |r| == |users|
      && forall i :: 0 <= i < |users| ==>
           r[i] == if users[i].id == id then users[i].(balance := Balance(users[i].balance.amount, Some(now))) else users[i]
  {
    var k := First(users, ById(id));
    ModifiedKeepsFirst(users, id, IncBalance(amount, Some(now)));
    if k.Some? {
      forall i | 0 <= i < |users| && users[i].id == id
        ensures i == k.value
      {
        UniqueSelectsOne(users, ById(id), i, k.value);
      }
    }
  }

  /** A change keeps the ids, so the same document is found first by id. */
  lemma ModifiedKeepsFirst(users: seq<User>, id: string, c: Change)
    ensures First(Modified(users, id, c), ById(id)) == First(users, ById(id))
  {
    var k := First(users, ById(id));
    if k.Some? {
      var once := Modified(users, id, c);
      assert forall j :: 0 <= j < k.value ==> once[j] == users[j];
      assert Selects(ById(id), once[k.value]);
    }
  }

  /** The bulk `update(set__status=status)` of the query set `q`. */
  function SetStatusWhere(users: seq<User>, q: Query, status: string): (r: seq<User>)
    ensures |r| == |users|
    ensures forall i :: 0 <= i < |users| && Selects(q, users[i]) ==> r[i] == users[i].(status := status)
    ensures forall i :: 0 <= i < |users| && !Selects(q, users[i]) ==> r[i] == users[i]
  {
    seq(|users|, i requires 0 <= i < |users| => if Selects(q, users[i]) then users[i].(status := status) else users[i])
  }

  /** Counting one more document of a prefix. */
  lemma CountStep(users: seq<User>, q: Query, i: nat)
    requires i < |users|
    ensures Count(users[..i + 1], q) == Count(users[..i], q) + if Selects(q, users[i]) then 1 else 0
  {
    assert users[..i + 1][..i] == users[..i];
  }

  /** The collection. Every document in it satisfies the unique indexes and
      has been through `save()` once. */
  class UserStore {
    var users: seq<User>

    ghost predicate Valid()
      reads this
    {
      Unique(users) && forall i :: 0 <= i < |users| ==> Stored(users[i])
    }

    constructor ()
      ensures Valid() && users == []
    {
      users := [];
    }

    /** `user.save()`: the answer and the new collection are those of
        `SaveOutcome`. */
    method Save(u: User, hashpw: string -> string, checkUrl: string -> Option<string>) returns (err: Option<Exception>)
      requires Valid()
      modifies this
      ensures Valid()
      ensures (err, users) == SaveOutcome(old(users), u, hashpw, checkUrl)
    {
      SaveKeepsValid(users, u, hashpw, checkUrl);
      var o := SaveOutcome(users, u, hashpw, checkUrl);
      err, users := o.0, o.1;
    }

    /** `modify()` / `update()` of the document with id `id`. The values
        are first checked as the update is built (`ChangeError`), and a
        refused one raises before anything is sent. The answer is whether a
        document matched. */
    method Modify(id: string, c: Change) returns (r: Result<bool, Exception>)
      requires Valid()
      modifies this
      ensures Valid()
      ensures ChangeError(c).Some? ==> r == Err(ChangeError(c).value) && users == old(users)
      ensures ChangeError(c).None? ==>
        && r.Ok? && (r.value <==> First(old(users), ById(id)).Some?)
        && users == Modified(old(users), id, c)
    {
      var err := ChangeError(c);
      if err.Some? {
        return Err(err.value);
      }
      ModifiedKeepsUnique(users, id, c);
      r := Ok(First(users, ById(id)).Some?);
      users := Modified(users, id, c);
    }

    /** `user.topup_balance(amount)` at `now`, on the in-memory document `u`;
        `changed` says whether it has unsaved changes. */
    method TopupBalance(u: User, changed: bool, amount: int, now: Instant) returns (err: Option<Exception>)
      requires Valid()
      modifies this
      ensures Valid()
      ensures changed ==> err == Some(OperationError) && users == old(users)
      ensures !changed && amount <= 0 ==> err == Some(ValueError(TOPUP_AMOUNT_MSG)) && users == old(users)
      ensures !changed && amount > 0 ==>
        && users == Modified(old(users), u.id, IncBalance(amount, Some(now)))
        && (err.None? <==> First(old(users), ById(u.id)).Some?)
        && (err.Some? ==> err == Some(OperationError))
    {
      if changed {
        return Some(OperationError);
      }
      if amount <= 0 {
        return Some(ValueError(TOPUP_AMOUNT_MSG));
      }
      var modified := Modify(u.id, IncBalance(amount, Some(now)));
      err := if modified.value then None else Some(OperationError);
    }

    /** `user.spend_balance(amount)`: the same two guards, then the amount is
        taken off with no lower bound; the top-up date stays. */
    method SpendBalance(u: User, changed: bool, amount: int) returns (err: Option<Exception>)
      requires Valid()
      modifies this
      ensures Valid()
      ensures changed ==> err == Some(OperationError) && users == old(users)
      ensures !changed && amount <= 0 ==> err == Some(ValueError(SPEND_AMOUNT_MSG)) && users == old(users)
      ensures !changed && amount > 0 ==>
        && users == Modified(old(users), u.id, IncBalance(-amount, None))
        && (err.None? <==> First(old(users), ById(u.id)).Some?)
        && (err.Some? ==> err == Some(OperationError))
    {
      if changed {
        return Some(OperationError);
      }
      if amount <= 0 {
        return Some(ValueError(SPEND_AMOUNT_MSG));
      }
      var modified := Modify(u.id, IncBalance(-amount, None));
      err := if modified.value then None else Some(OperationError);
    }

    /** `User.objects(q).update(set__status=status)`. The status text is
        only checked to be a string (a `StringField` without `max_length`);
        its `choices` are not checked, so any text is written. The answer is
        the number of documents updated. */
    method UpdateStatus(q: Query, status: string) returns (count: nat)
      requires Valid()
      modifies this
      ensures Valid()
      ensures users == SetStatusWhere(old(users), q, status)
      ensures count == Count(old(users), q)
    {
      SetStatusKeepsValid(users, q, status);
      users, count := SetStatusEach(users, q, status);
    }
  }

  /** The server side of a bulk status update: document by document, the
      selected ones get the status and are counted. */
  method SetStatusEach(before: seq<User>, q: Query, status: string) returns (after: seq<User>, count: nat)
    ensures after == SetStatusWhere(before, q, status)
    ensures count == Count(before, q)
  {
    after := before;
    var i := 0;
    count := 0;
    while i < |before|
      invariant 0 <= i <= |before| == |after|
      invariant forall j :: 0 <= j < i ==> after[j] == SetStatusWhere(before, q, status)[j]
      invariant forall j :: i <= j < |before| ==> after[j] == before[j]
      invariant count == Count(before[..i], q)
    {
      CountStep(before, q, i);
      if Selects(q, before[i]) {
        after := after[i := before[i].(status := status)];
        count := count + 1;
      }
      i := i + 1;
    }
    assert before[..i] == before;
  }

  /** A status write keeps the unique indexes and what `save()` established. */
  lemma SetStatusKeepsValid(users: seq<User>, q: Query, status: string)
    requires Unique(users) && forall i :: 0 <= i < |users| ==> Stored(users[i])
    ensures var after := SetStatusWhere(users, q, status);
      Unique(after) && forall i :: 0 <= i < |after| ==> Stored(after[i])
  {
    var after := SetStatusWhere(users, q, status);
    forall a, b | 0 <= a < b < |after|
      ensures Apart(after[a], after[b])
    {
      assert Apart(users[a], users[b]);
    }
  }

  const TOPUP_AMOUNT_MSG: string := "Invalid amount for topup_balance()"
  const SPEND_AMOUNT_MSG: string := "Invalid amount for spend_balance()"
}
