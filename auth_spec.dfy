/** The credential and password-reset lifecycle of the authentication
    controllers, as pure transitions over the user store.

    The store maps an email (the unique key) to the user record. Each
    controller becomes a function from the store before the request to a
    `Step`: the store after it, the reply (status and body), and the mail the
    handler hands to the mailer, if any. The current time (`Date.now()`) and
    the drawn one-time code are parameters. */
module AuthSpec {

  import opened Wrappers
  import opened Credentials
  import opened OtpCode
  import opened JsString

  const MIN_PASSWORD_LENGTH := 6
  const MIN_MOBILE_LENGTH := 10
  /** Lifetime of a one-time code in milliseconds: five minutes. */
  const OTP_TTL_MS := 5 * 60 * 1000

  /** A user document as the controllers read and write it. */
  datatype UserRecord = UserRecord(
    fullName: Option<string>,
    password: Option<Digest>,
    mobile: Option<string>,
    role: Option<string>,
    resetOtp: Option<string>,
    otpExpiry: Option<int>,
    isOtpVerified: bool)

  type Store = map<string, UserRecord>

  /** The 400 answers, one per message the controllers send. */
  datatype AuthError =
    | UserAlreadyExists        // "User already exists"
    | PasswordTooShort         // "Password must be at least 6 characters long"
    | MobileTooShort           // "Mobile number must be at least 10 digits long"
    | UserDoesNotExist         // "User does not exist"
    | InvalidCredentials       // "Invalid credentials"
    | EmailRequired            // "Email is required"
    | InvalidOrExpiredOtp      // "Invalid or expired OTP"
    | OtpVerificationRequired  // "OTP verification required"

  /** What a controller answers. The three session replies carry the stored
      record, as the handlers return `{ user }`, and set a session cookie for
      that account. `Fault` is the 500 answer of a handler's catch block. */
  datatype Reply =
    | Registered(email: string, user: UserRecord)
    | SignedIn(email: string, user: UserRecord)
    | GoogleSignedIn(email: string, user: UserRecord)
    | SignedOut
    | OtpSent
    | OtpVerified
    | PasswordReset
    | Rejected(error: AuthError)
    | Fault

  function Status(r: Reply): (code: int)
    ensures code == 201 <==> r.Registered?
    ensures code == 400 <==> r.Rejected?
    ensures code == 500 <==> r.Fault?
    ensures code in {200, 201, 400, 500}
  {
    match r
    case Registered(_, _) => 201
    case Rejected(_) => 400
    case Fault => 500
    case _ => 200
  }

  /** The account a reply issues a session token for, if any. */
  function SessionFor(r: Reply): (e: Option<string>)
    ensures e.Some? <==> r.Registered? || r.SignedIn? || r.GoogleSignedIn?
    ensures e.Some? ==> e.value == r.email
  {
    match r
    case Registered(email, _) => Some(email)
    case SignedIn(email, _) => Some(email)
    case GoogleSignedIn(email, _) => Some(email)
    case _ => None
  }

  /** A one-time code handed to the mailer, with its recipient. */
  datatype Mail = Mail(to: string, code: string)

  datatype Step = Step(store: Store, reply: Reply, mail: Option<Mail>)

  /** `!password || password.length < 6` rejects; the length is counted
      in UTF-16 code units. */
  predicate PasswordAcceptable(p: Option<string>)
  {
    p.Some? && Utf16Length(p.value) >= MIN_PASSWORD_LENGTH
  }

  /** `!mobile || mobile.length < 10` rejects; the length is counted in
      UTF-16 code units. */
  predicate MobileAcceptable(m: Option<string>)
  {
    m.Some? && Utf16Length(m.value) >= MIN_MOBILE_LENGTH
  }

  /** `!user.otpExpiry || user.otpExpiry.getTime() < Date.now()`: a code
      whose expiry equals the current time is still live. */
  predicate Expired(rec: UserRecord, now: int)
  {
    rec.otpExpiry.None? || rec.otpExpiry.value < now
  }

  /** The record has no pending code and no verified flag. */
  predicate NoResetState(rec: UserRecord)
  {
    rec.resetOtp.None? && rec.otpExpiry.None? && !rec.isOtpVerified
  }

  /** `s'` holds the keys of `s` plus `email`, and every other record as it
      was. */
  predicate OthersUnchanged(s: Store, s': Store, email: string)
  {
    && s'.Keys == s.Keys + {email}
    && forall k :: k in s && k != email ==> s'[k] == s[k]
  }

  /** A request that is answered without touching the store. */
  function Reject(s: Store, e: AuthError): (r: Step)
    ensures r.store == s && r.reply.Rejected? && r.reply.error == e && r.mail.None?
  {
    Step(s, Rejected(e), None)
  }

  /** `signUp`: duplicate email first, then the password, then the mobile
      number; on success one record is added, holding the digest of the
      password. */
  function SignUp(s: Store, fullName: Option<string>, email: string, password: Option<string>,
                  mobile: Option<string>, role: Option<string>): (r: Step)
    ensures r.mail.None?
    ensures email in s ==> r == Reject(s, UserAlreadyExists)
    ensures email !in s && !PasswordAcceptable(password) ==> r == Reject(s, PasswordTooShort)
    ensures email !in s && PasswordAcceptable(password) && !MobileAcceptable(mobile) ==>
              r == Reject(s, MobileTooShort)
    ensures r.reply.Registered? <==>
              email !in s && PasswordAcceptable(password) && MobileAcceptable(mobile)
    ensures !r.reply.Registered? ==> r.store == s && r.reply.Rejected?
    ensures r.reply.Registered? ==>
              && OthersUnchanged(s, r.store, email)
              && |r.store| == |s| + 1
              && r.reply.email == email
              && r.reply.user == r.store[email]
              && r.store[email].password == Some(Hash(password.value))
              && r.store[email].fullName == fullName
              && r.store[email].mobile == mobile
              && r.store[email].role == role
              && NoResetState(r.store[email])
  {
    if email in s then Reject(s, UserAlreadyExists)
    else if !PasswordAcceptable(password) then Reject(s, PasswordTooShort)
    else if !MobileAcceptable(mobile) then Reject(s, MobileTooShort)
    else
      var user := UserRecord(fullName, Some(Hash(password.value)), mobile, role, None, None, false);
      Step(s[email := user], Registered(email, user), None)
  }

  /** `signIn`: unknown email, then the password against the stored digest
      (or against "" when the record has none). Never changes the store. */
  function SignIn(s: Store, email: string, password: string): (r: Step)
    ensures r.store == s && r.mail.None?
    ensures email !in s ==> r.reply == Rejected(UserDoesNotExist)
    ensures r.reply.SignedIn? <==> email in s && Compare(password, StoredText(s[email].password))
    ensures email in s && !r.reply.SignedIn? ==> r.reply == Rejected(InvalidCredentials)
    ensures r.reply.SignedIn? ==> r.reply.email == email && r.reply.user == s[email]
  {
    if email !in s then Reject(s, UserDoesNotExist)
    else if !Compare(password, StoredText(s[email].password)) then Reject(s, InvalidCredentials)
    else Step(s, SignedIn(email, s[email]), None)
  }

  /** `signOut`: clears the client's cookie; the store is not touched. */
  function SignOut(s: Store): (r: Step)
    ensures r.store == s && r.reply == SignedOut && r.mail.None?
    ensures SessionFor(r.reply).None?
  {
    Step(s, SignedOut, None)
  }

  /** `sendOtp`: an empty email, then an unknown one, are rejected; otherwise
      the drawn code replaces any earlier one, expires five minutes from now,
      resets the verified flag and is mailed to the account. */
  function SendOtp(s: Store, email: string, now: int, pick: OtpPick): (r: Step)
    ensures email == "" ==> r == Reject(s, EmailRequired)
    ensures email != "" && email !in s ==> r == Reject(s, UserDoesNotExist)
    ensures r.reply == OtpSent <==> email != "" && email in s
    ensures r.reply != OtpSent ==> r.store == s && r.reply.Rejected? && r.mail.None?
    ensures r.reply == OtpSent ==>
              && OthersUnchanged(s, r.store, email)
              && r.store.Keys == s.Keys
              && r.store[email].resetOtp == Some(OtpString(pick))
              && IsOtpCode(r.store[email].resetOtp.value)
              && r.store[email].otpExpiry == Some(now + OTP_TTL_MS)
              && !r.store[email].isOtpVerified
              && r.store[email].fullName == s[email].fullName
              && r.store[email].password == s[email].password
              && r.store[email].mobile == s[email].mobile
              && r.store[email].role == s[email].role
              && r.mail == Some(Mail(email, OtpString(pick)))
  {
    if email == "" then Reject(s, EmailRequired)
    else if email !in s then Reject(s, UserDoesNotExist)
    else
      var code := OtpString(pick);
      var user := s[email].(resetOtp := Some(code), otpExpiry := Some(now + OTP_TTL_MS),
                            isOtpVerified := false);
      Step(s[email := user], OtpSent, Some(Mail(email, code)))
  }

  /** `verifyOtp`: the supplied code must equal the stored one (strictly, an
      absent code equals an absent one) and the expiry must be set and not
      before now. Success raises the verified flag and consumes the code. */
  function VerifyOtp(s: Store, email: string, otp: Option<string>, now: int): (r: Step)
    ensures r.mail.None?
    ensures email !in s ==> r == Reject(s, UserDoesNotExist)
    ensures r.reply == OtpVerified <==>
              email in s && s[email].resetOtp == otp && !Expired(s[email], now)
    ensures email in s && r.reply != OtpVerified ==> r == Reject(s, InvalidOrExpiredOtp)
    ensures r.reply == OtpVerified ==>
              && OthersUnchanged(s, r.store, email)
              && r.store.Keys == s.Keys
              && r.store[email] == s[email].(isOtpVerified := true, resetOtp := None, otpExpiry := None)
  {
    if email !in s then Reject(s, UserDoesNotExist)
    else if s[email].resetOtp != otp || Expired(s[email], now) then Reject(s, InvalidOrExpiredOtp)
    else
      var user := s[email].(isOtpVerified := true, resetOtp := None, otpExpiry := None);
      Step(s[email := user], OtpVerified, None)
  }

  /** `resetPassword`: the new password is checked before any lookup; then
      the account must exist and carry the verified flag. Success stores the
      digest of the new password and lowers the flag. */
  function ResetPassword(s: Store, email: string, newPassword: Option<string>): (r: Step)
    ensures r.mail.None?
    ensures !PasswordAcceptable(newPassword) ==> r == Reject(s, PasswordTooShort)
    ensures r.reply == PasswordReset <==>
              PasswordAcceptable(newPassword) && email in s && s[email].isOtpVerified
    ensures PasswordAcceptable(newPassword) && r.reply != PasswordReset ==>
              r == Reject(s, OtpVerificationRequired)
    ensures r.reply == PasswordReset ==>
              && OthersUnchanged(s, r.store, email)
              && r.store.Keys == s.Keys
              && r.store[email] == s[email].(password := Some(Hash(newPassword.value)), isOtpVerified := false)
  {
    if !PasswordAcceptable(newPassword) then Reject(s, PasswordTooShort)
    else if email !in s || !s[email].isOtpVerified then Reject(s, OtpVerificationRequired)
    else
      var user := s[email].(password := Some(Hash(newPassword.value)), isOtpVerified := false);
      Step(s[email := user], PasswordReset, None)
  }

  /** `gooogleAuth` as intended: an existing account is signed in unchanged;
      a new email gets a record without a password. */
  function GoogleAuth(s: Store, fullName: Option<string>, email: string, mobile: Option<string>,
                      role: Option<string>): (r: Step)
    ensures r.mail.None?
    ensures r.reply.GoogleSignedIn? && r.reply.email == email
    ensures email in r.store && r.reply.user == r.store[email]
    ensures email in s ==> r.store == s
    ensures email !in s ==>
              && OthersUnchanged(s, r.store, email)
              && |r.store| == |s| + 1
              && r.store[email].password.None?
              && r.store[email].fullName == fullName
              && r.store[email].mobile == mobile
              && r.store[email].role == role
              && NoResetState(r.store[email])
  {
    if email in s then Step(s, GoogleSignedIn(email, s[email]), None)
    else
      var user := UserRecord(fullName, None, mobile, role, None, None, false);
      Step(s[email := user], GoogleSignedIn(email, user), None)
  }

  /** `gooogleAuth` as written: `User.create(fullName, email, mobile, role)`
      passes positional values where a keyed document is expected, so no
      record is made for a new email and the catch block answers 500. */
  function GoogleAuthAsWritten(s: Store, fullName: Option<string>, email: string, mobile: Option<string>,
                               role: Option<string>): (r: Step)
    ensures r.store == s && r.mail.None?
    ensures r.reply.GoogleSignedIn? <==> email in s
    ensures email in s ==> r.reply == GoogleSignedIn(email, s[email])
    ensures email !in s ==> r.reply == Fault
  {
    if email in s then Step(s, GoogleSignedIn(email, s[email]), None)
    else Step(s, Fault, None)
  }

  /** Every request the controllers accept, with the time it arrives at and,
      for `sendOtp`, the code the server draws. */
  datatype Request =
    | SignUpReq(fullName: Option<string>, email: string, password: Option<string>, mobile: Option<string>, role: Option<string>)
    | SignInReq(email: string, plain: string)
    | SignOutReq
    | SendOtpReq(email: string, now: int, pick: OtpPick)
    | VerifyOtpReq(email: string, otp: Option<string>, now: int)
    | ResetPasswordReq(email: string, newPassword: Option<string>)
    | GoogleAuthReq(fullName: Option<string>, email: string, mobile: Option<string>, role: Option<string>)

  function Apply(s: Store, req: Request): Step
  {
    match req
    case SignUpReq(n, e, p, m, role) => SignUp(s, n, e, p, m, role)
    case SignInReq(e, p) => SignIn(s, e, p)
    case SignOutReq => SignOut(s)
    case SendOtpReq(e, now, pick) => SendOtp(s, e, now, pick)
    case VerifyOtpReq(e, otp, now) => VerifyOtp(s, e, otp, now)
    case ResetPasswordReq(e, p) => ResetPassword(s, e, p)
    case GoogleAuthReq(n, e, m, role) => GoogleAuth(s, n, e, m, role)
  }

  /** The store after a sequence of requests, handled one at a time. */
  function Run(s: Store, reqs: seq<Request>): Store
    decreases |reqs|
  {
    if reqs == [] then s else Run(Apply(s, reqs[0]).store, reqs[1..])
  }

  /** The reset sub-state of a record is coherent: a code and its expiry are
      set together, a stored code is six digits, and a verified flag means
      the code has been consumed. */
  predicate ResetStateCoherent(rec: UserRecord)
  {
    && (rec.resetOtp.Some? <==> rec.otpExpiry.Some?)
    && (rec.resetOtp.Some? ==> IsOtpCode(rec.resetOtp.value))
    && (rec.isOtpVerified ==> rec.resetOtp.None?)
  }

  predicate StoreInvariant(s: Store)
  {
    forall e :: e in s ==> ResetStateCoherent(s[e])
  }
}
