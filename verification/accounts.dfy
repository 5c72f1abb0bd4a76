/**
 * The account endpoints of the Django backend (accounts/views.py): the
 * cookie login, registration, the three password-reset steps and the
 * one-shot guard on Google authorization codes. The user table is a
 * sequence of accounts; password hashing, the reset-token generator,
 * the uid decoder and the mailer are oracle parameters.
 */
module Accounts {
  import opened Wrappers
  import opened Text
  import opened Seqs
  import Http

  datatype Account = Account(id: nat, username: string, email: string, firstName: string, lastName: string, isActive: bool)

  /** The result of `User.objects.get(...)`: no row, one row, or MultipleObjectsReturned. */
  datatype Lookup = NoMatch | One(account: Account) | Several

  function HasEmail(email: string): Account -> bool
  {
    (a: Account) => a.email == email
  }

  function ByEmail(users: seq<Account>, email: string): (r: Lookup)
    ensures r.NoMatch? <==> forall a :: a in users ==> a.email != email
    ensures r.One? ==> r.account in users && r.account.email == email && Count(HasEmail(email), users) == 1
    ensures r.Several? <==> Count(HasEmail(email), users) > 1
  {
    var m := Filter(HasEmail(email), users);
    if |m| == 0 then NoMatch
    else if |m| == 1 then One(m[0])
    else
      assert m[0] in users;
      Several
  }

  /** `User.objects.get(pk=...)`; primary keys are unique, so the first row is the row. */
  function ById(users: seq<Account>, id: nat): (r: Option<Account>)
    ensures r.Some? ==> r.value in users && r.value.id == id
    ensures r.None? <==> forall a :: a in users ==> a.id != id
  {
    var m := Filter((a: Account) => a.id == id, users);
    if |m| == 0 then None else Some(m[0])
  }

  /** `.strip().lower()` applied to every email the views receive. */
  function NormalizeEmail(raw: string): (r: string)
    ensures |r| <= |raw|
    ensures |r| > 0 ==> !IsPySpace(r[0]) && !IsPySpace(r[|r| - 1])
  {
    var s := PyStrip(raw);
    LowerKeepsSpaces(s);
    Lower(s)
  }

  lemma LowerKeepsSpaces(s: string)
    ensures forall k :: 0 <= k < |s| ==> (IsPySpace(Lower(s)[k]) <==> IsPySpace(s[k]))
  {
  }

  /** Normalizing twice is normalizing once. */
  lemma NormalizeIdempotent(raw: string)
    ensures NormalizeEmail(NormalizeEmail(raw)) == NormalizeEmail(raw)
  {
    var n := NormalizeEmail(raw);
    StripStripped(n);
    LowerIdempotent(PyStrip(raw));
  }

  /** A JSON response, or an exception Django turns into its 500 page. */
  datatype Response = Json(status: int, detail: string) | ServerError

  // ---------------------------------------------------------------- login

  datatype Cookie = Cookie(name: string, maxAge: int)

  /** The two HttpOnly JWT cookies of a successful login: 15 minutes and 7 days. */
  const SessionCookies := [Cookie("access", 60 * 15), Cookie("refresh", 60 * 60 * 24 * 7)]

  datatype LoginResult = LoginResult(response: Response, cookies: seq<Cookie>)

  const InvalidCredentials := Json(401, "Invalid credentials")

  /**
   * `CookieLoginView.post`: normalize the email, require both fields, look
   * the account up, check the password, and only then whether the account
   * is active.
   */
  function Login(users: seq<Account>, rawEmail: string, password: string,
                 checkPassword: (Account, string) -> bool): (r: LoginResult)
    ensures r.cookies == SessionCookies <==> r.response == Json(200, "Login successful")
    ensures r.cookies != SessionCookies ==> r.cookies == []
    ensures r.response == Json(200, "Login successful") <==>
      && NormalizeEmail(rawEmail) != "" && password != ""
      && ByEmail(users, NormalizeEmail(rawEmail)).One?
      && checkPassword(ByEmail(users, NormalizeEmail(rawEmail)).account, password)
      && ByEmail(users, NormalizeEmail(rawEmail)).account.isActive
    ensures NormalizeEmail(rawEmail) == "" || password == "" ==>
      r.response == Json(400, "Email and password are required")
    ensures r.response == Json(401, "User account is disabled") ==>
      ByEmail(users, NormalizeEmail(rawEmail)).One? &&
      checkPassword(ByEmail(users, NormalizeEmail(rawEmail)).account, password)
  {
    var email := NormalizeEmail(rawEmail);
    if email == "" || password == "" then LoginResult(Json(400, "Email and password are required"), [])
    else
      match ByEmail(users, email)
      case NoMatch => LoginResult(InvalidCredentials, [])
      case Several => LoginResult(ServerError, [])
      case One(a) =>
        if !checkPassword(a, password) then LoginResult(InvalidCredentials, [])
        else if !a.isActive then LoginResult(Json(401, "User account is disabled"), [])
        else LoginResult(Json(200, "Login successful"), SessionCookies)
  }

  /** An unknown email and a wrong password are answered identically. */
  lemma UnknownEmailLooksLikeWrongPassword(users: seq<Account>, unknown: string, known: string, password: string,
                                           checkPassword: (Account, string) -> bool)
    requires NormalizeEmail(unknown) != "" && NormalizeEmail(known) != "" && password != ""
    requires ByEmail(users, NormalizeEmail(unknown)).NoMatch?
    requires ByEmail(users, NormalizeEmail(known)).One?
    requires !checkPassword(ByEmail(users, NormalizeEmail(known)).account, password)
    ensures Login(users, unknown, password, checkPassword) == Login(users, known, password, checkPassword)
  {
  }

  /** A disabled account is revealed only to someone who knows its password. */
  lemma DisabledOnlyAfterPassword(users: seq<Account>, rawEmail: string, password: string,
                                  checkPassword: (Account, string) -> bool)
    requires ByEmail(users, NormalizeEmail(rawEmail)).One?
    requires !checkPassword(ByEmail(users, NormalizeEmail(rawEmail)).account, password)
    ensures Login(users, rawEmail, password, checkPassword).response.Json?
    ensures Login(users, rawEmail, password, checkPassword).response.detail != "User account is disabled"
  {
  }

  // --------------------------------------------------------- registration

  /** The registration body; `phone` is sent by the signup page but never read. */
  datatype Registration = Registration(firstName: string, lastName: string, email: string, phone: string, password: string)

  datatype RegisterResult = RegisterResult(response: Response, users: seq<Account>)

  const PasswordMin := 8

  const EmailTaken := Json(400, "User with this email already exists")

  /** The first failing registration check, if any. */
  function RegisterRejection(users: seq<Account>, first: string, last: string, email: string, password: string): (r: Option<Response>)
    ensures r.None? <==>
      && first != "" && last != "" && email != "" && password != ""
      && |password| >= PasswordMin && '@' in email && '.' in email
      && (forall a :: a in users ==> a.email != email && a.username != email)
    ensures r.Some? ==> r.value.Json? && r.value.status == 400
  {
    if first == "" || last == "" || email == "" || password == "" then
      Some(Json(400, "Missing required fields: first_name, last_name, email, password"))
    else if |password| < PasswordMin then Some(Json(400, "Password must be at least 8 characters long"))
    else if '@' !in email || '.' !in email then Some(Json(400, "Invalid email format"))
    else if exists a :: a in users && a.email == email then Some(EmailTaken)
    // the `username` column is unique and takes the email: IntegrityError
    else if exists a :: a in users && a.username == email then Some(EmailTaken)
    else None
  }

  /**
   * `register_user`: strip the names, normalize the email, run the checks
   * in order, and create an active account whose username is the email.
   */
  function Register(users: seq<Account>, req: Registration, nextId: nat): (r: RegisterResult)
    ensures r.response.Json? && (r.response.status == 201 || r.response.status == 400)
    ensures r.response.status == 201 <==>
      RegisterRejection(users, PyStrip(req.firstName), PyStrip(req.lastName), NormalizeEmail(req.email), req.password).None?
    ensures r.response.status == 400 ==> r.users == users
    ensures r.response.status == 201 ==>
      r.users == users + [Account(nextId, NormalizeEmail(req.email), NormalizeEmail(req.email),
                                  PyStrip(req.firstName), PyStrip(req.lastName), true)]
  {
    var first, last, email := PyStrip(req.firstName), PyStrip(req.lastName), NormalizeEmail(req.email);
    match RegisterRejection(users, first, last, email, req.password)
    case Some(resp) => RegisterResult(resp, users)
    case None => RegisterResult(Json(201, "Account created successfully"), users + [Account(nextId, email, email, first, last, true)])
  }

  /** The phone number plays no part in registration. */
  lemma RegisterIgnoresPhone(users: seq<Account>, req: Registration, phone: string, nextId: nat)
    ensures Register(users, req.(phone := phone), nextId) == Register(users, req, nextId)
  {
  }

  /** A short password is refused before the email is even looked at. */
  lemma ShortPasswordBeforeEmailChecks(users: seq<Account>, req: Registration, nextId: nat)
    requires PyStrip(req.firstName) != "" && PyStrip(req.lastName) != "" && NormalizeEmail(req.email) != ""
    requires req.password != "" && |req.password| < PasswordMin
    ensures Register(users, req, nextId).response == Json(400, "Password must be at least 8 characters long")
  {
  }

  /** A new account is found by login under any spelling of its email that normalizes alike. */
  lemma RegisteredEmailIsFound(users: seq<Account>, req: Registration, nextId: nat, typed: string)
    requires Register(users, req, nextId).response.status == 201
    requires NormalizeEmail(typed) == NormalizeEmail(req.email)
    ensures ByEmail(Register(users, req, nextId).users, NormalizeEmail(typed)) ==
      One(Register(users, req, nextId).users[|users|])
  {
    var email := NormalizeEmail(req.email);
    var after := Register(users, req, nextId).users;
    var created := after[|users|];
    FilterAppend(HasEmail(email), users, [created]);
    assert Filter(HasEmail(email), users) == [];
    assert after == users + [created];
    assert Filter(HasEmail(email), [created]) == [created];
  }

  // ---------------------------------------------------------- reset request

  const ResetGeneric := "If an account exists with this email, you will receive reset instructions."

  /**
   * `password_reset_request`: the same 200 answer whether or not the
   * account exists; 500 when mailing fails or the email is ambiguous.
   * `mailSent` is what `send_mail` does for this request.
   */
  function ResetRequest(users: seq<Account>, rawEmail: string, mailSent: bool): (r: Response)
    ensures NormalizeEmail(rawEmail) == "" ==> r == Json(400, "Email is required")
    ensures NormalizeEmail(rawEmail) != "" && ByEmail(users, NormalizeEmail(rawEmail)).NoMatch? ==> r == Json(200, ResetGeneric)
    ensures r == Json(200, ResetGeneric) <==>
      NormalizeEmail(rawEmail) != "" &&
      (ByEmail(users, NormalizeEmail(rawEmail)).NoMatch? || (ByEmail(users, NormalizeEmail(rawEmail)).One? && mailSent))
  {
    var email := NormalizeEmail(rawEmail);
    if email == "" then Json(400, "Email is required")
    else
      match ByEmail(users, email)
      case NoMatch => Json(200, ResetGeneric)
      case Several => Json(500, "An error occurred. Please try again.")
      case One(_) =>
        if mailSent then Json(200, ResetGeneric)
        else Json(500, "Failed to send reset email. Please try again later.")
  }

  /** Whether an email is registered cannot be read off a delivered reset request. */
  lemma ResetRequestHidesAccounts(users: seq<Account>, unknown: string, known: string)
    requires NormalizeEmail(unknown) != "" && ByEmail(users, NormalizeEmail(unknown)).NoMatch?
    requires NormalizeEmail(known) != "" && ByEmail(users, NormalizeEmail(known)).One?
    ensures ResetRequest(users, unknown, true) == ResetRequest(users, known, true)
  {
  }

  // ---------------------------------------------------------- reset confirm

  /** The uid decoder (`urlsafe_base64_decode` then `force_str`), None where it raises. */
  type UidDecoder = string -> Option<nat>

  /** `default_token_generator.check_token`. */
  type TokenCheck = (Account, string) -> bool

  /** The account a reset link names, if the uid decodes to an existing one. */
  function LinkAccount(users: seq<Account>, uid: string, decode: UidDecoder): (r: Option<Account>)
    ensures r.Some? ==> r.value in users
  {
    match decode(uid)
    case None => None
    case Some(id) => ById(users, id)
  }

  datatype ConfirmResult = ConfirmResult(response: Response, newPassword: Option<(nat, string)>)

  /**
   * `password_reset_confirm`: all three fields, then the length, then the
   * uid, then the token; only then is the password replaced.
   */
  function ResetConfirm(users: seq<Account>, uid: Option<string>, token: Option<string>, password: Option<string>,
                        decode: UidDecoder, check: TokenCheck): (r: ConfirmResult)
    ensures r.newPassword.Some? <==> r.response.Json? && r.response.status == 200
    ensures !(Http.Truthy(uid) && Http.Truthy(token) && Http.Truthy(password)) ==>
      r.response == Json(400, "Missing required fields: uid, token, password")
    ensures Http.Truthy(uid) && Http.Truthy(token) && Http.Truthy(password) && |password.value| < PasswordMin ==>
      r.response == Json(400, "Password must be at least 8 characters long")
    ensures r.newPassword.Some? ==>
      && Http.Truthy(uid) && Http.Truthy(token) && Http.Truthy(password) && |password.value| >= PasswordMin
      && LinkAccount(users, uid.value, decode).Some?
      && check(LinkAccount(users, uid.value, decode).value, token.value)
      && r.newPassword.value == (LinkAccount(users, uid.value, decode).value.id, password.value)
  {
    if !(Http.Truthy(uid) && Http.Truthy(token) && Http.Truthy(password)) then
      ConfirmResult(Json(400, "Missing required fields: uid, token, password"), None)
    else if |password.value| < PasswordMin then
      ConfirmResult(Json(400, "Password must be at least 8 characters long"), None)
    else
      match LinkAccount(users, uid.value, decode)
      case None => ConfirmResult(Json(400, "Invalid reset link"), None)
      case Some(a) =>
        if !check(a, token.value) then ConfirmResult(Json(400, "Invalid or expired reset link"), None)
        else ConfirmResult(Json(200, "Password has been reset successfully. You can now log in with your new password."),
                           Some((a.id, password.value)))
  }

  /** Missing fields and short passwords are refused whatever the decoder and token checker say. */
  lemma ConfirmPrechecksIgnoreOracles(users: seq<Account>, uid: Option<string>, token: Option<string>, password: Option<string>,
                                      d1: UidDecoder, c1: TokenCheck, d2: UidDecoder, c2: TokenCheck)
    requires !(Http.Truthy(uid) && Http.Truthy(token) && Http.Truthy(password)) || |password.value| < PasswordMin
    ensures ResetConfirm(users, uid, token, password, d1, c1) == ResetConfirm(users, uid, token, password, d2, c2)
  {
  }

  // --------------------------------------------------------- validate token

  datatype Validation = Validation(status: int, valid: bool, detail: string)

  /** `validate_reset_token`: 400 for a missing field, otherwise 200 with the verdict. */
  function ValidateToken(users: seq<Account>, uid: Option<string>, token: Option<string>,
                         decode: UidDecoder, check: TokenCheck): (r: Validation)
    ensures !(Http.Truthy(uid) && Http.Truthy(token)) ==> r == Validation(400, false, "Missing uid or token")
    ensures r.valid <==>
      Http.Truthy(uid) && Http.Truthy(token) && LinkAccount(users, uid.value, decode).Some? &&
      check(LinkAccount(users, uid.value, decode).value, token.value)
    ensures Http.Truthy(uid) && Http.Truthy(token) ==> r.status == 200
  {
    if !(Http.Truthy(uid) && Http.Truthy(token)) then Validation(400, false, "Missing uid or token")
    else
      match LinkAccount(users, uid.value, decode)
      case None => Validation(200, false, "Invalid token")
      case Some(a) =>
        var ok := check(a, token.value);
        Validation(200, ok, if ok then "Token is valid" else "Token is invalid or expired")
  }

  /** A link the validator accepts lets any long enough password through the confirm step. */
  lemma ValidLinkConfirms(users: seq<Account>, uid: string, token: string, password: string,
                          decode: UidDecoder, check: TokenCheck)
    requires ValidateToken(users, Some(uid), Some(token), decode, check).valid
    requires |password| >= PasswordMin
    ensures ResetConfirm(users, Some(uid), Some(token), Some(password), decode, check).newPassword.Some?
  {
  }

  // ------------------------------------------------------------ Google code

  /** The cache: key to expiry instant (seconds). */
  type Cache = map<string, int>

  const CodeWindow := 300

  /** `f"oauth_code:{code}:{state}"`, where a missing state prints as `None`. */
  function CodeKey(code: string, state: Option<string>): string
  {
    "oauth_code:" + code + ":" + (if state.Some? then state.value else "None")
  }

  /** `cache.get(key)` is truthy while the entry has not expired. */
  predicate Live(cache: Cache, key: string, now: int)
  {
    key in cache && now < cache[key]
  }

  datatype CallbackStep = Rejected(message: string) | Exchange

  datatype Callback = Callback(step: CallbackStep, cache: Cache)

  /**
   * The guard at the top of `CustomGoogleCallbackView.get`: a code is
   * required, a live key is refused, and otherwise the key is marked for
   * five minutes before the exchange with Google starts.
   */
  function GoogleCallback(cache: Cache, code: Option<string>, state: Option<string>, now: int): (r: Callback)
    ensures !Http.Truthy(code) ==> r == Callback(Rejected("No authorization code provided"), cache)
    ensures r.step.Exchange? <==> Http.Truthy(code) && !Live(cache, CodeKey(code.value, state), now)
    ensures r.step.Exchange? ==> r.cache == cache[CodeKey(code.value, state) := now + CodeWindow]
    ensures r.step.Rejected? ==> r.cache == cache
  {
    if !Http.Truthy(code) then Callback(Rejected("No authorization code provided"), cache)
    else
      var key := CodeKey(code.value, state);
      if Live(cache, key, now) then Callback(Rejected("Authorization code already used"), cache)
      else Callback(Exchange, cache[key := now + CodeWindow])
  }

  /**
   * A (code, state) pair starts at most one exchange per window: a replay
   * within five minutes is refused, whatever became of the first exchange.
   */
  lemma CodeUsedOnce(cache: Cache, code: string, state: Option<string>, t1: int, t2: int)
    requires code != ""
    requires GoogleCallback(cache, Some(code), state, t1).step.Exchange?
    requires t1 <= t2 < t1 + CodeWindow
    ensures GoogleCallback(GoogleCallback(cache, Some(code), state, t1).cache, Some(code), state, t2).step ==
      Rejected("Authorization code already used")
  {
  }

  /** Once the window has passed the same pair is accepted again. */
  lemma CodeReusableAfterWindow(cache: Cache, code: string, state: Option<string>, t1: int, t2: int)
    requires code != ""
    requires GoogleCallback(cache, Some(code), state, t1).step.Exchange?
    requires t2 >= t1 + CodeWindow
    ensures GoogleCallback(GoogleCallback(cache, Some(code), state, t1).cache, Some(code), state, t2).step.Exchange?
  {
  }

  /** A missing state and the literal state "None" share one key. */
  lemma MissingStateIsNoneString(code: string)
    ensures CodeKey(code, None) == CodeKey(code, Some("None"))
  {
  }
}
