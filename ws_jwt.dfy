/** Authentication of websocket connections by the access-token cookie the
    web application sets. The token library is not modelled: its two answers
    (the unverified header, and the verified claims or why there are none)
    are parameters. */
module WebsocketJwt {

  import opened Common
  import opened WebsocketUtils

  /** `jwt.get_unverified_header(token)`: a header that cannot be decoded, or
      the text `str(header['alg'])` of its algorithm, `None` when the header
      has no `alg` entry. */
  datatype Header = MalformedHeader | Header(alg: Option<string>)

  /** `jwt.decode(token, key, algorithms=['HS256'])`, once the header allows
      it: the claims, an expired signature, or any other invalid token. */
  datatype Verified = Claims(claims: map<string, Json>) | Expired | InvalidToken

  const ALGORITHM: string := "HS256"

  function UpperChar(c: char): char {
    if 'a' <= c <= 'z' then (c as int - 32) as char else c
  }

  predicate IsAscii(s: string) {
    forall i :: 0 <= i < |s| ==> s[i] as int < 128
  }

  /** Python's `str.upper()`: each character is replaced by its full
      upper-case mapping. ASCII characters are mapped here; `upperOf(c)` is
      the Unicode mapping of any other character, which may be longer than
      one character (`'ß'` becomes `"SS"`) and may leave ASCII (`'ſ'`
      becomes `"S"`). */
  function Upper(s: string, upperOf: char -> string): string {
    if s == [] then []
    else (if s[0] as int < 128 then [UpperChar(s[0])] else upperOf(s[0])) + Upper(s[1..], upperOf)
  }

  /** On ASCII text the upper-casing maps character by character, whatever
      the Unicode table says about other characters. */
  lemma {:induction false} AsciiUpper(s: string, upperOf: char -> string)
    requires IsAscii(s)
    ensures |Upper(s, upperOf)| == |s|
    ensures forall i :: 0 <= i < |s| ==> Upper(s, upperOf)[i] == UpperChar(s[i])
  {
    if s != [] {
      AsciiUpper(s[1..], upperOf);
      assert Upper(s, upperOf) == [UpperChar(s[0])] + Upper(s[1..], upperOf);
    }
  }

  /** For an ASCII algorithm name the allow-list test accepts HS256 in any
      mix of cases, and nothing else. */
  lemma AlgorithmAcceptedExactly(alg: string, upperOf: char -> string)
    requires IsAscii(alg)
    ensures Upper(alg, upperOf) == ALGORITHM <==>
      (|alg| == 5 && (alg[0] == 'H' || alg[0] == 'h') && (alg[1] == 'S' || alg[1] == 's')
       && alg[2] == '2' && alg[3] == '5' && alg[4] == '6')
  {
    AsciiUpper(alg, upperOf);
    var u := Upper(alg, upperOf);
    if u == ALGORITHM {
      assert u[0] == 'H' && u[1] == 'S';
      assert u[2] == '2' && u[3] == '5' && u[4] == '6';
    }
    if |alg| == 5 && (alg[0] == 'H' || alg[0] == 'h') && (alg[1] == 'S' || alg[1] == 's')
       && alg[2] == '2' && alg[3] == '5' && alg[4] == '6' {
      assert u == ['H', 'S', '2', '5', '6'];
    }
  }

  function Unsupported(alg: string): string {
    "Unsupported algorithm: " + alg + ". Only HS256 is supported."
  }

  const EXPIRED_MSG: string := "Token has expired"
  const INVALID_MSG: string := "Invalid access token"

  /** `decode_jwt_token(token)`: the claims, or the text of the exception it
      raises. A header the library cannot read is an invalid token. A header
      without `alg` raises `KeyError('alg')`, whose text is `'alg'`. The
      verification step allows only HS256, so a header that passes the
      upper-casing check without reading exactly `HS256` is refused there
      as an invalid token. `upperOf` is the Unicode upper-case mapping of
      the characters outside ASCII (see `Upper`). */
  function DecodeJwtToken(header: Header, verify: Verified, upperOf: char -> string): (r: Result<map<string, Json>, string>)
    ensures header.MalformedHeader? ==> r == Err(INVALID_MSG)
    ensures header.Header? && header.alg.None? ==> r == Err("'alg'")
    ensures header.Header? && header.alg.Some? && Upper(header.alg.value, upperOf) != ALGORITHM ==>
      r == Err(Unsupported(Upper(header.alg.value, upperOf)))
    ensures r.Ok? <==> header == Header(Some(ALGORITHM)) && verify.Claims?
    ensures r.Ok? ==> r.value == verify.claims
    ensures header == Header(Some(ALGORITHM)) && verify == Expired ==> r == Err(EXPIRED_MSG)
  {
    match header
    case MalformedHeader => Err(INVALID_MSG)
    case Header(alg) =>
      if alg.None? then Err("'alg'")
      else if Upper(alg.value, upperOf) != ALGORITHM then Err(Unsupported(Upper(alg.value, upperOf)))
      else if alg.value != ALGORITHM then Err(INVALID_MSG)
      else match verify
        case Claims(c) => Ok(c)
        case Expired => Err(EXPIRED_MSG)
        case InvalidToken => Err(INVALID_MSG)
  }

  /** The long s `'ſ'` upper-cases to `'S'`, so the algorithm `hſ256`
      passes the upper-casing check; the verification step, which compares
      the header as written, then refuses the token as invalid rather than
      as unsupported. */
  lemma LongSIsRefusedAsInvalid(verify: Verified, upperOf: char -> string)
    requires upperOf('\U{017F}') == "S"
    ensures DecodeJwtToken(Header(Some(['h', '\U{017F}', '2', '5', '6'])), verify, upperOf) == Err(INVALID_MSG)
  {
    var alg := ['h', '\U{017F}', '2', '5', '6'];
    assert Upper(alg[4..], upperOf) == ['6'];
    assert Upper(alg[3..], upperOf) == ['5', '6'];
    assert Upper(alg[2..], upperOf) == ['2', '5', '6'];
    assert Upper(alg[1..], upperOf) == ['S', '2', '5', '6'];
    assert Upper(alg, upperOf) == ALGORITHM;
  }

  const COOKIE: string := "access_token_cookie"
  const NO_TOKEN_MSG: string := "No access token provided"
  const NO_USER_MSG: string := "Invalid token: no user ID found"

  /** The check the wrapper makes before the handler: the cookie, the token,
      and a truthy `sub` claim, which becomes the handler's `user_id`. The
      token library's answers for the cookie's token are `header` and
      `verify`. */
  function Authenticate(cookies: map<string, string>, header: string -> Header, verify: string -> Verified,
                        upperOf: char -> string)
    : (r: Result<Json, string>)
    ensures COOKIE !in cookies ==> r == Err(NO_TOKEN_MSG)
    ensures r.Ok? <==>
      && COOKIE in cookies
      && DecodeJwtToken(header(cookies[COOKIE]), verify(cookies[COOKIE]), upperOf).Ok?
      && "sub" in DecodeJwtToken(header(cookies[COOKIE]), verify(cookies[COOKIE]), upperOf).value
      && Truthy(DecodeJwtToken(header(cookies[COOKIE]), verify(cookies[COOKIE]), upperOf).value["sub"])
    ensures r.Ok? ==> r.value == DecodeJwtToken(header(cookies[COOKIE]), verify(cookies[COOKIE]), upperOf).value["sub"]
    ensures COOKIE in cookies && DecodeJwtToken(header(cookies[COOKIE]), verify(cookies[COOKIE]), upperOf).Err? ==>
      r == Err(DecodeJwtToken(header(cookies[COOKIE]), verify(cookies[COOKIE]), upperOf).error)
  {
    if COOKIE !in cookies then Err(NO_TOKEN_MSG)
    else
      var token := cookies[COOKIE];
      var decoded := DecodeJwtToken(header(token), verify(token), upperOf);
      if decoded.Err? then Err(decoded.error)
      else if "sub" !in decoded.value || !Truthy(decoded.value["sub"]) then Err(NO_USER_MSG)
      else Ok(decoded.value["sub"])
  }

  /** 1008: policy violation. */
  const POLICY_VIOLATION: int := 1008

  /** What the wrapper does to a connection it refuses. */
  function Rejection(message: string): (a: seq<WsAction>)
    ensures |a| == 3 && a[0] == Accept && a[2] == Close(POLICY_VIOLATION)
    ensures a[1] == SendJson(JObj(map["auth_error" := JStr(message)]))
  {
    [Accept, SendJson(JObj(map["auth_error" := JStr(message)])), Close(POLICY_VIOLATION)]
  }

  /** `websocket_auth(func)` applied to a connection carrying `cookies`. The
      result is the `user_id` the wrapped handler is called with, `None` when
      it is not called; the handler's own effects are not part of this. An
      accepted connection is left untouched for the handler; a refused one
      is accepted, told why, and closed, in that order. */
  method WebsocketAuth(ws: WebSocket, cookies: map<string, string>, header: string -> Header, verify: string -> Verified,
                       upperOf: char -> string)
    returns (call: Option<Json>)
    modifies ws
    ensures ws.incoming == old(ws.incoming)
    ensures Authenticate(cookies, header, verify, upperOf).Ok? ==>
      call == Some(Authenticate(cookies, header, verify, upperOf).value) && ws.actions == old(ws.actions)
    ensures Authenticate(cookies, header, verify, upperOf).Err? ==>
      call.None? && ws.actions == old(ws.actions) + Rejection(Authenticate(cookies, header, verify, upperOf).error)
  {
    var outcome := Authenticate(cookies, header, verify, upperOf);
    if outcome.Err? {
      ws.Perform(Accept);
      ws.Perform(SendJson(JObj(map["auth_error" := JStr(outcome.error)])));
      ws.Perform(Close(POLICY_VIOLATION));
      return None;
    }
    call := Some(outcome.value);
  }
}
