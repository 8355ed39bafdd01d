/**
 * `get_user_id_from_token` of app/common/security.py: a JSON Web Token (RFC 7519)
 * signed with HMAC SHA-256 ("HS256", section 3.2 of RFC 7518) is decoded with the
 * configured secret, and its `sub` claim is the caller's identity.
 *
 * `jwt.decode` is foreign code: it is the parameter `decode`, a partial function that
 * yields the payload or nothing (a `PyJWTError`).
 */
module Security {
  import opened Wrappers

  /** A claim value in a decoded payload; lists and objects are `JCompound`. */
  datatype Claim = JNull | JBool(b: bool) | JInt(i: int) | JFloat(r: real) | JStr(s: string) | JCompound

  type Payload = map<string, Claim>

  /** `jwt.decode(token, key, algorithms=...)`: the payload, or `None` where PyJWT raises. */
  type Decoder = (string, string, seq<string>) -> Option<Payload>

  const ALGORITHM: string := "HS256"

  datatype HttpError = HttpError(statusCode: int, detail: string, wwwAuthenticate: string)

  /** The one error every rejection raises: 401 with a Bearer challenge. */
  const CredentialsException: HttpError := HttpError(401, "Could not validate credentials", "Bearer")

  /** `payload.get(key)`: a missing key reads as `None`. */
  function PayloadGet(payload: Payload, key: string): Claim {
    if key in payload then payload[key] else JNull
  }

  /** What the existence check holds: calling the async `get_user_from_db` without `await`
      yields a coroutine object and runs none of its body. */
  datatype PyObject = PyNone | PendingCoroutine

  function UnawaitedGetUserFromDb(userid: Claim): PyObject {
    PendingCoroutine
  }

  /**
   * `get_user_id_from_token(token)`: the `sub` claim of the token decoded with the configured
   * secret and HS256 only; the 401 credentials error when decoding fails or `sub` is missing
   * or null. The existence check that follows cannot reject, so acceptance depends on the
   * token alone.
   */
  function GetUserIdFromToken(decode: Decoder, secretKey: string, token: string): (r: Result<Claim, HttpError>)
    ensures r.Success? <==>
      decode(token, secretKey, [ALGORITHM]).Some? && PayloadGet(decode(token, secretKey, [ALGORITHM]).value, "sub") != JNull
    ensures r.Success? ==>
      && "sub" in decode(token, secretKey, [ALGORITHM]).value
      && r.value == decode(token, secretKey, [ALGORITHM]).value["sub"]
    ensures r.Failure? ==> r.error == CredentialsException
  {
    match decode(token, secretKey, [ALGORITHM])
    case None => Failure(CredentialsException)
    case Some(payload) =>
      var userid := PayloadGet(payload, "sub");
      if userid == JNull then Failure(CredentialsException)
      else
        var result := UnawaitedGetUserFromDb(userid);
        if result == PyNone then Failure(CredentialsException)
        else Success(userid)
  }

  /** Only HS256 under the configured secret is consulted: two decoders that agree on that one
      question give the same verdict, whatever they do for other keys or algorithms. */
  lemma OnlyConfiguredKeyAndAlgorithm(d1: Decoder, d2: Decoder, secretKey: string, token: string)
    requires d1(token, secretKey, [ALGORITHM]) == d2(token, secretKey, [ALGORITHM])
    ensures GetUserIdFromToken(d1, secretKey, token) == GetUserIdFromToken(d2, secretKey, token)
  {
  }
}
