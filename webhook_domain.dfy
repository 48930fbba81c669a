/** The webhook blueprint: a gate that identifies the sending user by the
    access token, and the endpoint behind it. */
module WebhookDomain {
  import opened Common
  import opened UserModel
  import opened Users

  const INVALID_TOKEN_MSG: string := "Invalid access token"

  /** `request.json.get('access_token') or request.args.get('access_token')`:
      the body's value unless it is missing or falsy, else the query
      argument (`None` when that is missing too). */
  function AccessToken(bodyValue: Option<Json>, queryValue: Option<string>): (t: Option<Json>)
    ensures bodyValue.Some? && Truthy(bodyValue.value) ==> t == bodyValue
    ensures !(bodyValue.Some? && Truthy(bodyValue.value)) ==>
      t == if queryValue.Some? then Some(JStr(queryValue.value)) else None
  {
    if bodyValue.Some? && Truthy(bodyValue.value) then bodyValue
    else if queryValue.Some? then Some(JStr(queryValue.value))
    else None
  }

  /** `User.objects(access_token=token).get()`. A missing token, and one
      that is a number, a boolean or a list, selects nothing: tokens are
      stored as text. A non-empty object reaches the server as a document of
      query operators; `operators(doc)` is the server's evaluation of it. */
  function TokenOwner(users: seq<User>, token: Option<Json>, operators: map<string, Json> -> User -> bool)
    : (r: Result<nat, Exception>)
    ensures token.Some? && token.value.JStr? ==> r == Get(users, ByToken(token.value.s))
    ensures token.Some? && token.value.JObj? ==> r == Get(users, Matching(operators(token.value.fields)))
    ensures !(token.Some? && (token.value.JStr? || token.value.JObj?)) ==> r == Err(DoesNotExist)
  {
    if token.Some? && token.value.JStr? then Get(users, ByToken(token.value.s))
    else if token.Some? && token.value.JObj? then Get(users, Matching(operators(token.value.fields)))
    else Err(DoesNotExist)
  }

  /** An operator document that selects several users makes `.get()` raise
      `MultipleObjectsReturned`, which the gate does not catch, and one that
      selects a single user lets the caller in as that user without knowing
      any token. */
  lemma OperatorTokenSelects(users: seq<User>, doc: map<string, Json>, operators: map<string, Json> -> User -> bool)
    requires doc != map[]
    ensures var owner := TokenOwner(users, AccessToken(Some(JObj(doc)), None), operators);
      && ((exists i, j :: 0 <= i < j < |users| && operators(doc)(users[i]) && operators(doc)(users[j]))
            ==> owner == Err(MultipleObjectsReturned))
      && (forall k :: (0 <= k < |users| && operators(doc)(users[k])
                        && forall j :: 0 <= j < |users| && j != k ==> !operators(doc)(users[j]))
            ==> owner == Ok(k))
  {
    assert AccessToken(Some(JObj(doc)), None) == Some(JObj(doc));
  }

  /** `webhook_token_required`: an unknown token is answered with 401 and the
      handler is not run; otherwise the handler runs with the owner's `_id`
      as the request's user id. */
  function WebhookTokenRequired(users: seq<User>, bodyValue: Option<Json>, queryValue: Option<string>,
                                operators: map<string, Json> -> User -> bool,
                                handler: string -> Result<Response, Exception>): (r: Result<Response, Exception>)
    ensures var owner := TokenOwner(users, AccessToken(bodyValue, queryValue), operators);
      && (owner == Err(DoesNotExist) ==> r == Ok(Msg(401, INVALID_TOKEN_MSG)))
      && (owner.Ok? ==> r == handler(users[owner.value].id))
      && (owner.Err? && owner.error != DoesNotExist ==> r == Err(owner.error))
  {
    var owner := TokenOwner(users, AccessToken(bodyValue, queryValue), operators);
    if owner.Err? then
      if owner.error == DoesNotExist then Ok(Msg(401, INVALID_TOKEN_MSG)) else Err(owner.error)
    else handler(users[owner.value].id)
  }

  /** `webhook_post`: the event is accepted whatever it is. */
  function WebhookPost(event: string, userId: string): Result<Response, Exception> {
    Ok(Response(200, JStr("Accepted")))
  }

  /** Under the unique index on `access_token`, the user whose token arrives in
      the body is the one the event is recorded for, and an empty or missing
      body token falls back to the query argument. The gate never fails with
      several matches. */
  lemma TokenIdentifiesUser(users: seq<User>, k: nat, bodyValue: Option<Json>, queryValue: Option<string>, event: string,
                            operators: map<string, Json> -> User -> bool)
    requires Unique(users) && k < |users|
    requires || (bodyValue == Some(JStr(users[k].accessToken)) && users[k].accessToken != "")
             || ((bodyValue.None? || bodyValue == Some(JStr(""))) && queryValue == Some(users[k].accessToken))
    ensures TokenOwner(users, AccessToken(bodyValue, queryValue), operators) == Ok(k)
    ensures WebhookTokenRequired(users, bodyValue, queryValue, operators, id => WebhookPost(event, id)) == Ok(Response(200, JStr("Accepted")))
  {
    assert AccessToken(bodyValue, queryValue) == Some(JStr(users[k].accessToken));
    GetOfUnique(users, ByToken(users[k].accessToken), k);
  }

  /** A token no user holds is refused, whichever way it arrives. */
  lemma UnknownTokenRefused(users: seq<User>, token: string, fromBody: bool, operators: map<string, Json> -> User -> bool,
                            handler: string -> Result<Response, Exception>)
    requires forall i :: 0 <= i < |users| ==> users[i].accessToken != token
    requires fromBody ==> token != ""
    ensures var body := if fromBody then Some(JStr(token)) else None;
      var query := if fromBody then None else Some(token);
      WebhookTokenRequired(users, body, query, operators, handler) == Ok(Msg(401, INVALID_TOKEN_MSG))
  {
    var body := if fromBody then Some(JStr(token)) else None;
    var query := if fromBody then None else Some(token);
    assert AccessToken(body, query) == Some(JStr(token));
  }
}
