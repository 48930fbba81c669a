/** The authentication endpoints: the hook that renews access tokens about
    to expire, login, registration, its confirmation, and the password
    change. Creating and signing tokens is the token library's work; the
    model keeps what the handlers decide, namely for whom a token cookie is
    set. The identity of an authenticated caller is a parameter. */
module AuthDomain {

  import opened Common
  import opened Calendar
  import opened Config
  import opened BaseDocument
  import opened UserModel
  import opened Users

  /** A token cookie set on the response: the identity the new access token
      is issued for, and the cookie's `max_age` when one is given. */
  datatype TokenCookie = TokenCookie(identity: Json, maxAge: Option<nat>)

  // ----- refresh_expiring_jwts -----

  /** What `get_jwt()` gives the hook: no verified token in the request
      (`RuntimeError`), or the claims of the verified one, with `exp` in
      seconds since the Unix epoch (`None` when the claim is missing, which
      raises `KeyError`) and the identity claim `sub`. */
  datatype VerifiedJwt = NoJwt | Jwt(exp: Option<int>, sub: Option<Json>)

  /** `refresh_expiring_jwts` at `now`, microseconds since the Unix epoch,
      with the renewal window `refresh` (`JWT_ACCESS_TOKEN_REFRESH`) in
      microseconds. The answer is the cookie added to the response; `None`
      leaves the response as it was. A token is renewed exactly when it has
      not expired yet and expires within the window. */
  function RefreshExpiringJwts(jwt: VerifiedJwt, now: int, refresh: nat): (r: Option<TokenCookie>)
    ensures r.Some? <==>
      jwt.Jwt? && jwt.exp.Some? && now <= jwt.exp.value * MICROS_PER_SECOND < now + refresh
    ensures r.Some? ==> r.value.maxAge == Some(JWT_COOKIE_MAX_AGE)
    ensures r.Some? ==> r.value.identity == if jwt.sub.Some? then jwt.sub.value else JNull
  {
    if jwt.NoJwt? || jwt.exp.None? then None
    else
      var exp := jwt.exp.value * MICROS_PER_SECOND;
      if exp < now then None
      else if now + refresh > exp then
        Some(TokenCookie(if jwt.sub.Some? then jwt.sub.value else JNull, Some(JWT_COOKIE_MAX_AGE)))
      else None
  }

  /** A renewal moves the expiry past the window: a token issued at any
      instant with a lifetime of at least `refresh` plus one second (the
      claim `exp` is in whole seconds, so up to a second is lost) is not
      renewed again at the same time. */
  lemma RenewedTokenIsNotRenewedAgain(now: int, refresh: nat, lifetime: nat, sub: Option<Json>)
    requires lifetime * MICROS_PER_SECOND >= refresh + MICROS_PER_SECOND
    ensures RefreshExpiringJwts(Jwt(Some(now / MICROS_PER_SECOND + lifetime), sub), now, refresh).None?
  {
    assert now - MICROS_PER_SECOND < (now / MICROS_PER_SECOND) * MICROS_PER_SECOND <= now;
  }

  // ----- POST /login -----

  const USER_NOT_FOUND_MSG: string := "user not found"
  const BAD_CREDENTIALS_MSG: string := "invalid phone number or password"

  /** `details.full_name or phone_number`. */
  function Username(u: User): string {
    var name := FullName(u.details);
    if name != "" then name else u.phoneNumber
  }

  /** A stored user always gets a name to show: the full name when it is not
      blank, the phone number otherwise. */
  lemma UsernameNeverEmpty(u: User)
    requires Stored(u)
    ensures Username(u) != ""
    ensures Username(u) == u.phoneNumber <== (AllSpace(NameText(u.details.firstName)) && AllSpace(NameText(u.details.lastName)))
  {
    FullNameEmpty(u.details);
  }

  /** The body of a successful login. */
  function LoggedIn(u: User): (r: Response)
    ensures r.status == 200 && r.body.JObj? && r.body.fields.Keys == {"_id", "username", "role"}
    ensures r.body.fields["_id"] == JStr(u.id) && r.body.fields["role"] == JStr(u.role)
    ensures r.body.fields["username"] == JStr(Username(u))
  {
    Response(200, JObj(map["_id" := JStr(u.id), "username" := JStr(Username(u)), "role" := JStr(u.role)]))
  }

  /** `login` with the credentials `phone` and `password` at `now`.
      `checkpw` is bcrypt's comparison. Only an active user with that phone
      number can log in; a successful login records the time and sets an
      access cookie for the user's id. */
  method Login(store: UserStore, phone: string, password: string, checkpw: (string, string) -> bool, now: Instant)
    returns (resp: Response, cookie: Option<TokenCookie>)
    requires store.Valid()
    modifies store
    ensures store.Valid()
    ensures First(old(store.users), ActiveByPhone(phone)).None? ==>
      resp == Msg(404, USER_NOT_FOUND_MSG) && cookie.None? && store.users == old(store.users)
    ensures First(old(store.users), ActiveByPhone(phone)).Some? ==>
      var u := old(store.users)[First(old(store.users), ActiveByPhone(phone)).value];
      && u.status == ACTIVE && u.phoneNumber == phone
      && (!checkpw(password, u.password.hash) ==>
            resp == Msg(401, BAD_CREDENTIALS_MSG) && cookie.None? && store.users == old(store.users))
      && (checkpw(password, u.password.hash) ==>
            && resp == LoggedIn(u) && cookie == Some(TokenCookie(JStr(u.id), None))
            && store.users == Modified(old(store.users), u.id, SetLastLogin(now)))
  {
    var found := First(store.users, ActiveByPhone(phone));
    if found.None? {
      return Msg(404, USER_NOT_FOUND_MSG), None;
    }
    var u := store.users[found.value];
    var checked := CheckPassword(u, password, checkpw);
    if !checked.value {
      return Msg(401, BAD_CREDENTIALS_MSG), None;
    }
    resp := LoggedIn(u);
    var _ := store.Modify(u.id, SetLastLogin(now));
    cookie := Some(TokenCookie(JStr(u.id), None));
  }

  // ----- POST /register -----

  const ALREADY_EXISTS_MSG: string := "user already exists"
  const PENDING_VERIFICATION_MSG: string := "user registration pending verification"
  const REGISTERED_MSG: string := "user registered successfully. Please contact admin for verification."

  /** The document `register` constructs: a pending user with the role
      `user`, the given names (`None` when the body has none) and the
      defaults of every other field. */
  function Registration(id: string, phone: string, password: string, first: Option<string>, last: Option<string>,
                        token: string, now: Instant): (u: User)
    ensures u.status == PENDING && u.role == "user" && u.phoneNumber == phone && u.id == id
    ensures u.password == Plain(password) && u.details == UserDetails(first, last, None)
  {
    NewUser(id, phone, password, first, last, PENDING, "user", token, now)
  }

  /** The answer of a registration whose document was saved with `err`. */
  function RegistrationAnswer(err: Option<Exception>): (r: Result<Response, Exception>)
    ensures err.None? ==> r == Ok(Msg(200, REGISTERED_MSG))
    ensures err.Some? ==> r == Err(err.value)
  {
    if err.Some? then Err(err.value) else Ok(Msg(200, REGISTERED_MSG))
  }

  /** Constructing and saving the registration: the constructor draws a fresh
      id and a fresh access token (from `pick`), and `save()` may raise. */
  method CreatePending(store: UserStore, ids: IdSource, phone: string, password: string,
                       first: Option<string>, last: Option<string>, pick: nat -> nat,
                       hashpw: string -> string, checkUrl: string -> Option<string>, now: Instant)
    returns (r: Result<Response, Exception>)
    requires store.Valid() && ids.Valid()
    modifies store, ids
    ensures store.Valid() && ids.Valid()
    ensures ids.next == old(ids.next) + 1
    ensures exists id :: (id !in old(ids.issued) && ids.issued == old(ids.issued) + {id} &&
      var o := SaveOutcome(old(store.users), Registration(id, phone, password, first, last, GenerateRandomToken(pick), now), hashpw, checkUrl);
      store.users == o.1 && r == RegistrationAnswer(o.0))
  {
    var id := AssignId(ids, None);
    var u := Registration(id, phone, password, first, last, GenerateRandomToken(pick), now);
    var err := store.Save(u, hashpw, checkUrl);
    r := RegistrationAnswer(err);
  }

  /** `register` as indented in the source: the construction and the save
      sit inside `if found_user:`. A number nobody has is answered as
      registered, and nothing is created. */
  method RegisterAsWritten(store: UserStore, ids: IdSource, phone: string, password: string,
                           first: Option<string>, last: Option<string>, pick: nat -> nat,
                           hashpw: string -> string, checkUrl: string -> Option<string>, now: Instant)
    returns (r: Result<Response, Exception>)
    requires store.Valid() && ids.Valid()
    modifies store, ids
    ensures store.Valid() && ids.Valid()
    ensures First(old(store.users), ByPhone(phone)).None? ==>
      && r == Ok(Msg(200, REGISTERED_MSG))
      && store.users == old(store.users) && ids.next == old(ids.next) && ids.issued == old(ids.issued)
    ensures First(old(store.users), ByPhone(phone)).Some? &&
            old(store.users)[First(old(store.users), ByPhone(phone)).value].status == ACTIVE ==>
      && r == Ok(Msg(409, ALREADY_EXISTS_MSG)) && store.users == old(store.users)
      && ids.next == old(ids.next) && ids.issued == old(ids.issued)
    ensures First(old(store.users), ByPhone(phone)).Some? &&
            old(store.users)[First(old(store.users), ByPhone(phone)).value].status == PENDING ==>
      && r == Ok(Msg(409, PENDING_VERIFICATION_MSG)) && store.users == old(store.users)
      && ids.next == old(ids.next) && ids.issued == old(ids.issued)
    ensures First(old(store.users), ByPhone(phone)).Some? &&
            old(store.users)[First(old(store.users), ByPhone(phone)).value].status !in {ACTIVE, PENDING} ==>
      && ids.next == old(ids.next) + 1
      && exists id :: (id !in old(ids.issued) && ids.issued == old(ids.issued) + {id} &&
           var o := SaveOutcome(old(store.users), Registration(id, phone, password, first, last, GenerateRandomToken(pick), now), hashpw, checkUrl);
           store.users == o.1 && r == RegistrationAnswer(o.0))
  {
    var found := First(store.users, ByPhone(phone));
    if found.Some? {
      var status := store.users[found.value].status;
      if status == ACTIVE {
        return Ok(Msg(409, ALREADY_EXISTS_MSG));
      } else if status == PENDING {
        return Ok(Msg(409, PENDING_VERIFICATION_MSG));
      }
      r := CreatePending(store, ids, phone, password, first, last, pick, hashpw, checkUrl, now);
      return;
    }
    r := Ok(Msg(200, REGISTERED_MSG));
  }

  /** `register` with the construction and the save at the level of the
      function body, as the conflict checks above them call for: every
      number that is neither active nor pending gets a new pending user. */
  method Register(store: UserStore, ids: IdSource, phone: string, password: string,
                  first: Option<string>, last: Option<string>, pick: nat -> nat,
                  hashpw: string -> string, checkUrl: string -> Option<string>, now: Instant)
    returns (r: Result<Response, Exception>)
    requires store.Valid() && ids.Valid()
    modifies store, ids
    ensures store.Valid() && ids.Valid()
    ensures First(old(store.users), ByPhone(phone)).Some? &&
            old(store.users)[First(old(store.users), ByPhone(phone)).value].status == ACTIVE ==>
      && r == Ok(Msg(409, ALREADY_EXISTS_MSG)) && store.users == old(store.users)
      && ids.next == old(ids.next) && ids.issued == old(ids.issued)
    ensures First(old(store.users), ByPhone(phone)).Some? &&
            old(store.users)[First(old(store.users), ByPhone(phone)).value].status == PENDING ==>
      && r == Ok(Msg(409, PENDING_VERIFICATION_MSG)) && store.users == old(store.users)
      && ids.next == old(ids.next) && ids.issued == old(ids.issued)
    ensures (First(old(store.users), ByPhone(phone)).None? ||
             old(store.users)[First(old(store.users), ByPhone(phone)).value].status !in {ACTIVE, PENDING}) ==>
      && ids.next == old(ids.next) + 1
      && exists id :: (id !in old(ids.issued) && ids.issued == old(ids.issued) + {id} &&
           var o := SaveOutcome(old(store.users), Registration(id, phone, password, first, last, GenerateRandomToken(pick), now), hashpw, checkUrl);
           store.users == o.1 && r == RegistrationAnswer(o.0))
  {
    var found := First(store.users, ByPhone(phone));
    if found.Some? {
      var status := store.users[found.value].status;
      if status == ACTIVE {
        return Ok(Msg(409, ALREADY_EXISTS_MSG));
      } else if status == PENDING {
        return Ok(Msg(409, PENDING_VERIFICATION_MSG));
      }
    }
    r := CreatePending(store, ids, phone, password, first, last, pick, hashpw, checkUrl, now);
  }

  /** A registration that is answered 200 leaves a pending user with that
      phone number, whom a lookup by number finds. */
  lemma RegisteredUserIsPending(users: seq<User>, u: User, hashpw: string -> string, checkUrl: string -> Option<string>)
    requires Unique(users) && forall i :: 0 <= i < |users| ==> Stored(users[i])
    requires u.status == PENDING && SaveOutcome(users, u, hashpw, checkUrl).0.None?
    ensures var r := SaveOutcome(users, u, hashpw, checkUrl).1;
      First(r, ByPhone(u.phoneNumber)).Some? && r[First(r, ByPhone(u.phoneNumber)).value] == Clean(u, hashpw)
      && r[First(r, ByPhone(u.phoneNumber)).value].status == PENDING
  {
    var c := Clean(u, hashpw);
    SaveKeepsValid(users, u, hashpw, checkUrl);
    var r := Upsert(users, c);
    FirstOfUnique(r, ByPhone(u.phoneNumber), First(r, ById(c.id)).value);
  }

  /** A well-formed registration of a phone number and a token nobody has
      is saved, and a lookup by the number then finds a user. */
  lemma UnknownNumberIsRegistered(users: seq<User>, u: User, hashpw: string -> string, checkUrl: string -> Option<string>)
    requires First(users, ByPhone(u.phoneNumber)).None? && First(users, ByToken(u.accessToken)).None?
    requires WellFormed(Clean(u, hashpw), checkUrl)
    ensures SaveOutcome(users, u, hashpw, checkUrl).0.None?
    ensures First(SaveOutcome(users, u, hashpw, checkUrl).1, ByPhone(u.phoneNumber)).Some?
  {
    var c := Clean(u, hashpw);
    NoClashWhenAbsent(users, c);
    var o := SaveOutcome(users, u, hashpw, checkUrl);
    assert o.0.None?;
    var r := Upsert(users, c);
    assert o.1 == r;
    var k := First(r, ById(c.id)).value;
    assert Selects(ByPhone(u.phoneNumber), r[k]);
  }

  /** A document whose phone number and token nobody has collides with no one. */
  lemma NoClashWhenAbsent(users: seq<User>, c: User)
    requires First(users, ByPhone(c.phoneNumber)).None? && First(users, ByToken(c.accessToken)).None?
    ensures !Clashes(users, c)
  {
    forall i | 0 <= i < |users|
      ensures users[i].phoneNumber != c.phoneNumber && users[i].accessToken != c.accessToken
    {
      assert !Selects(ByPhone(c.phoneNumber), users[i]) && !Selects(ByToken(c.accessToken), users[i]);
    }
  }

  // ----- POST /register_confirm -----

  const ALREADY_CONFIRMED_MSG: string := "account already confirmed"
  const CONFIRMED_MSG: string := "account confirmed"

  /** `register_confirm`: the first user with the number becomes active. */
  method RegisterConfirm(store: UserStore, phone: string) returns (resp: Response)
    requires store.Valid()
    modifies store
    ensures store.Valid()
    ensures First(old(store.users), ByPhone(phone)).None? ==>
      resp == Msg(404, USER_NOT_FOUND_MSG) && store.users == old(store.users)
    ensures First(old(store.users), ByPhone(phone)).Some? ==>
      var u := old(store.users)[First(old(store.users), ByPhone(phone)).value];
      && (u.status == ACTIVE ==> resp == Msg(422, ALREADY_CONFIRMED_MSG) && store.users == old(store.users))
      && (u.status != ACTIVE ==>
            resp == Msg(200, CONFIRMED_MSG) && store.users == Modified(old(store.users), u.id, SetStatus(ACTIVE)))
  {
    var found := First(store.users, ByPhone(phone));
    if found.None? {
      return Msg(404, USER_NOT_FOUND_MSG);
    }
    var u := store.users[found.value];
    if u.status == ACTIVE {
      return Msg(422, ALREADY_CONFIRMED_MSG);
    }
    var _ := store.Modify(u.id, SetStatus(ACTIVE));
    resp := Msg(200, CONFIRMED_MSG);
  }

  /** Once confirmed, the user is the one a login with the number finds. */
  lemma ConfirmedUserCanLogIn(users: seq<User>, phone: string)
    requires Unique(users) && forall i :: 0 <= i < |users| ==> Stored(users[i])
    requires First(users, ByPhone(phone)).Some?
    ensures var k := First(users, ByPhone(phone)).value;
      First(Modified(users, users[k].id, SetStatus(ACTIVE)), ActiveByPhone(phone)) == Some(k)
  {
    var k := First(users, ByPhone(phone)).value;
    var id := users[k].id;
    ModifiedKeepsUnique(users, id, SetStatus(ACTIVE));
    FirstOfUnique(users, ById(id), k);
    FirstOfUnique(Modified(users, id, SetStatus(ACTIVE)), ActiveByPhone(phone), k);
  }

  // ----- POST /change_password -----

  const OLD_PASSWORD_MISMATCH_MSG: string := "old password does not match"
  const PASSWORD_UPDATED_MSG: string := "password updated"

  function PasswordAnswer(err: Option<Exception>): (r: Result<Response, Exception>)
    ensures err.None? ==> r == Ok(Msg(200, PASSWORD_UPDATED_MSG))
    ensures err.Some? ==> r == Err(err.value)
  {
    if err.Some? then Err(err.value) else Ok(Msg(200, PASSWORD_UPDATED_MSG))
  }

  /** `change_password` for the caller `userId`: the old password must
      match; the new one is saved through `save()`, which hashes it and
      validates the whole document. */
  method ChangePassword(store: UserStore, userId: string, oldPassword: string, newPassword: string,
                        checkpw: (string, string) -> bool, hashpw: string -> string, checkUrl: string -> Option<string>)
    returns (r: Result<Response, Exception>)
    requires store.Valid()
    modifies store
    ensures store.Valid()
    ensures First(old(store.users), ById(userId)).None? ==>
      r == Ok(Msg(404, USER_NOT_FOUND_MSG)) && store.users == old(store.users)
    ensures First(old(store.users), ById(userId)).Some? ==>
      var u := old(store.users)[First(old(store.users), ById(userId)).value];
      && (!checkpw(oldPassword, u.password.hash) ==>
            r == Ok(Msg(409, OLD_PASSWORD_MISMATCH_MSG)) && store.users == old(store.users))
      && (checkpw(oldPassword, u.password.hash) ==>
            var o := SaveOutcome(old(store.users), u.(password := Plain(newPassword)), hashpw, checkUrl);
            store.users == o.1 && r == PasswordAnswer(o.0))
  {
    var found := First(store.users, ById(userId));
    if found.None? {
      return Ok(Msg(404, USER_NOT_FOUND_MSG));
    }
    var u := store.users[found.value];
    var checked := CheckPassword(u, oldPassword, checkpw);
    if !checked.value {
      return Ok(Msg(409, OLD_PASSWORD_MISMATCH_MSG));
    }
    var err := store.Save(u.(password := Plain(newPassword)), hashpw, checkUrl);
    r := PasswordAnswer(err);
  }

  /** For a well-formed user the change goes through, and the stored password
      becomes the digest of the new one, in place of the old document. */
  lemma PasswordChangeOfWellFormedUser(users: seq<User>, k: nat, newPassword: string, hashpw: string -> string, checkUrl: string -> Option<string>)
    requires Unique(users) && k < |users| && WellFormed(users[k], checkUrl)
    ensures var o := SaveOutcome(users, users[k].(password := Plain(newPassword)), hashpw, checkUrl);
      && o.0.None? && |o.1| == |users|
      && o.1[k] == users[k].(password := Digest(hashpw(newPassword)))
  {
    var c := Clean(users[k].(password := Plain(newPassword)), hashpw);
    assert WellFormed(c, checkUrl);
    assert !Clashes(users, c);
    FirstOfUnique(users, ById(c.id), k);
  }

  /** A user the inactivity task has disabled has a status outside the
      choices, so changing their password fails validation: the exception
      escapes the handler and nothing is written. */
  lemma InactiveUserCannotChangePassword(users: seq<User>, u: User, newPassword: string, hashpw: string -> string, checkUrl: string -> Option<string>)
    requires u.status == INACTIVE && u.role in ROLES
    ensures SaveOutcome(users, u.(password := Plain(newPassword)), hashpw, checkUrl) == (Some(ValidationError(STATUS_CHOICES_MSG)), users)
  {
    InactiveIsNotAChoice();
  }
}
