/** Properties of the reset lifecycle that relate several requests: the
    one-time code is single use and expires, only the latest code counts, a
    reset needs a verification and uses it up, and the store invariant of
    `AuthSpec` is kept by every controller. */
module AuthProperties {

  import opened Wrappers
  import opened Credentials
  import opened OtpCode
  import opened AuthSpec
  import opened JsString

  // ---------------------------------------------------------------------
  // Credentials

  /** After a successful sign-up, signing in succeeds with the same password
      and fails with any other. */
  lemma SignInAfterSignUp(s: Store, fullName: Option<string>, email: string, password: string,
                          mobile: Option<string>, role: Option<string>, attempt: string)
    requires SignUp(s, fullName, email, Some(password), mobile, role).reply.Registered?
    ensures var s' := SignUp(s, fullName, email, Some(password), mobile, role).store;
            if attempt == password then SignIn(s', email, attempt).reply.SignedIn?
            else SignIn(s', email, attempt).reply == Rejected(InvalidCredentials)
  {
    CompareHash(attempt, password);
  }

  /** The password guard counts UTF-16 code units as `password.length`
      does: three emoji are six units, so the password is accepted. */
  lemma EmojiPasswordAccepted(s: Store, email: string)
    requires email !in s
    ensures SignUp(s, None, email, Some("\U{1F600}\U{1F600}\U{1F600}"), Some("0123456789"), None).reply.Registered?
  {
    EmojiLength();
    BmpLength("0123456789");
  }

  /** An account created by Google sign-in has no password, so password
      sign-in fails for it whatever is typed. */
  lemma GoogleAccountRejectsPasswords(s: Store, fullName: Option<string>, email: string,
                                      mobile: Option<string>, role: Option<string>, attempt: string)
    requires email !in s
    ensures SignIn(GoogleAuth(s, fullName, email, mobile, role).store, email, attempt).reply
              == Rejected(InvalidCredentials)
  {
    CompareEmpty(attempt);
  }

  /** Google sign-in of an email that is not yet stored: the code as written
      answers 500 and stores nothing, where the intended behaviour signs the
      user in with a new password-less account. */
  lemma GoogleFirstSignInDiscrepancy(s: Store, fullName: Option<string>, email: string,
                                     mobile: Option<string>, role: Option<string>)
    requires email !in s
    ensures var written := GoogleAuthAsWritten(s, fullName, email, mobile, role);
            Status(written.reply) == 500 && SessionFor(written.reply).None? && email !in written.store
    ensures var intended := GoogleAuth(s, fullName, email, mobile, role);
            Status(intended.reply) == 200 && SessionFor(intended.reply) == Some(email) && email in intended.store
  {
  }

  // ---------------------------------------------------------------------
  // The one-time code

  /** A verified code cannot be verified again, at any later time. */
  lemma VerifyIsSingleUse(s: Store, email: string, otp: Option<string>, now: int, later: int)
    requires VerifyOtp(s, email, otp, now).reply == OtpVerified
    ensures var s' := VerifyOtp(s, email, otp, now).store;
            VerifyOtp(s', email, otp, later) == Reject(s', InvalidOrExpiredOtp)
  {
  }

  /** The code just sent verifies exactly until five minutes after it was
      sent, that instant included. */
  lemma OtpExpiryGate(s: Store, email: string, sentAt: int, pick: OtpPick, now: int)
    requires email != "" && email in s
    ensures var s' := SendOtp(s, email, sentAt, pick).store;
            var verified := VerifyOtp(s', email, Some(OtpString(pick)), now).reply == OtpVerified;
            verified <==> now <= sentAt + OTP_TTL_MS
  {
  }

  /** Requesting a new code invalidates the previous one (unless the draw
      repeats it). */
  lemma OnlyLatestCodeVerifies(s: Store, email: string, t1: int, p1: OtpPick, t2: int, p2: OtpPick,
                               now: int)
    requires email != "" && email in s && p1 != p2
    ensures var s' := SendOtp(SendOtp(s, email, t1, p1).store, email, t2, p2).store;
            VerifyOtp(s', email, Some(OtpString(p1)), now) == Reject(s', InvalidOrExpiredOtp)
  {
    OtpStringInjective(p1, p2);
  }

  /** When the store invariant holds, a request without a code never
      verifies: an absent stored code goes with an absent expiry. */
  lemma MissingCodeNeverVerifies(s: Store, email: string, now: int)
    requires StoreInvariant(s)
    ensures VerifyOtp(s, email, None, now).reply != OtpVerified
  {
    if email in s {
      assert ResetStateCoherent(s[email]);
    }
  }

  // ---------------------------------------------------------------------
  // Reset gating

  /** A reset uses up the verification: a second reset fails until the code
      is verified again. */
  lemma ResetOncePerVerify(s: Store, email: string, p: Option<string>, q: Option<string>)
    requires ResetPassword(s, email, p).reply == PasswordReset
    ensures var s' := ResetPassword(s, email, p).store;
            ResetPassword(s', email, q).reply.Rejected?
    ensures var s' := ResetPassword(s, email, p).store;
            PasswordAcceptable(q) ==> ResetPassword(s', email, q) == Reject(s', OtpVerificationRequired)
  {
  }

  /** 1 when the account's verified flag is up. */
  function Flag(s: Store, email: string): (f: nat)
    ensures f <= 1
    ensures f == 1 <==> email in s && s[email].isOtpVerified
  {
    if email in s && s[email].isOtpVerified then 1 else 0
  }

  predicate IsResetOf(req: Request, reply: Reply, email: string)
  {
    req.ResetPasswordReq? && req.email == email && reply == PasswordReset
  }

  predicate IsVerifyOf(req: Request, reply: Reply, email: string)
  {
    req.VerifyOtpReq? && req.email == email && reply == OtpVerified
  }

  /** Successful resets of `email` along a run of requests. */
  function Resets(s: Store, reqs: seq<Request>, email: string): nat
    decreases |reqs|
  {
    if reqs == [] then 0
    else
      var st := Apply(s, reqs[0]);
      (if IsResetOf(reqs[0], st.reply, email) then 1 else 0) + Resets(st.store, reqs[1..], email)
  }

  /** Successful verifications of `email` along a run of requests. */
  function Verifies(s: Store, reqs: seq<Request>, email: string): nat
    decreases |reqs|
  {
    if reqs == [] then 0
    else
      var st := Apply(s, reqs[0]);
      (if IsVerifyOf(reqs[0], st.reply, email) then 1 else 0) + Verifies(st.store, reqs[1..], email)
  }

  /** One request: only a successful verification of the account raises its
      flag, and a successful reset of it needs the flag up and lowers it. */
  lemma StepAccounting(s: Store, req: Request, email: string)
    ensures var st := Apply(s, req);
            (if IsResetOf(req, st.reply, email) then 1 else 0) + Flag(st.store, email)
              <= (if IsVerifyOf(req, st.reply, email) then 1 else 0) + Flag(s, email)
  {
  }

  /** Over any run of requests, the resets of an account never outnumber its
      verifications (plus one if its flag was already up at the start); a
      flag still up at the end counts as a verification not yet used. */
  lemma {:induction false} ResetsBoundedByVerifies(s: Store, reqs: seq<Request>, email: string)
    ensures Resets(s, reqs, email) + Flag(Run(s, reqs), email) <= Verifies(s, reqs, email) + Flag(s, email)
    decreases |reqs|
  {
    if reqs != [] {
      StepAccounting(s, reqs[0], email);
      ResetsBoundedByVerifies(Apply(s, reqs[0]).store, reqs[1..], email);
    }
  }

  /** Without a successful verification no reset of the account succeeds,
      starting from any store where its flag is down. */
  lemma NoResetWithoutVerify(s: Store, reqs: seq<Request>, email: string)
    requires Flag(s, email) == 0 && Verifies(s, reqs, email) == 0
    ensures Resets(s, reqs, email) == 0
  {
    ResetsBoundedByVerifies(s, reqs, email);
  }

  /** A stored digest changes only through a successful reset of that
      account, to the digest of the new password; no request removes an
      account. */
  lemma PasswordChangesOnlyByReset(s: Store, req: Request, email: string)
    requires email in s
    ensures var st := Apply(s, req);
            && s.Keys <= st.store.Keys
            && (st.store[email].password != s[email].password ==>
                  IsResetOf(req, st.reply, email)
                  && st.store[email].password == Some(Hash(req.newPassword.value)))
  {
  }

  /** A session is issued only for a stored account, and a password sign-in
      only when the password matches the stored digest. */
  lemma SessionOnlyForStoredAccount(s: Store, req: Request)
    ensures var st := Apply(s, req);
            SessionFor(st.reply).Some? ==>
              && SessionFor(st.reply).value in st.store
              && (req.SignInReq? ==>
                    Compare(req.plain, StoredText(st.store[SessionFor(st.reply).value].password)))
  {
  }

  // ---------------------------------------------------------------------
  // The store invariant

  lemma ApplyPreservesInvariant(s: Store, req: Request)
    requires StoreInvariant(s)
    ensures StoreInvariant(Apply(s, req).store)
  {
    var s' := Apply(s, req).store;
    forall e | e in s'
      ensures ResetStateCoherent(s'[e])
    {
      if e in s {
        assert ResetStateCoherent(s[e]);
      }
    }
  }

  lemma {:induction false} RunPreservesInvariant(s: Store, reqs: seq<Request>)
    requires StoreInvariant(s)
    ensures StoreInvariant(Run(s, reqs))
    decreases |reqs|
  {
    if reqs != [] {
      ApplyPreservesInvariant(s, reqs[0]);
      RunPreservesInvariant(Apply(s, reqs[0]).store, reqs[1..]);
    }
  }

  // ---------------------------------------------------------------------
  // The whole reset sequence

  /** Register, request a code, verify the mailed code within five minutes,
      reset to a different password: every step succeeds, the flag ends down,
      the old password no longer signs in and the new one does. */
  lemma PasswordResetScenario(s: Store, fullName: Option<string>, email: string, oldPassword: string,
                              newPassword: string, mobile: string, role: Option<string>,
                              sentAt: int, pick: OtpPick, now: int)
    requires email != "" && email !in s
    requires Utf16Length(oldPassword) >= MIN_PASSWORD_LENGTH && Utf16Length(newPassword) >= MIN_PASSWORD_LENGTH
    requires oldPassword != newPassword
    requires Utf16Length(mobile) >= MIN_MOBILE_LENGTH
    requires sentAt <= now <= sentAt + OTP_TTL_MS
    ensures var s1 := SignUp(s, fullName, email, Some(oldPassword), Some(mobile), role);
            var s2 := SendOtp(s1.store, email, sentAt, pick);
            var s3 := VerifyOtp(s2.store, email, Some(s2.mail.value.code), now);
            var s4 := ResetPassword(s3.store, email, Some(newPassword));
            && s1.reply.Registered? && s2.reply == OtpSent && s3.reply == OtpVerified
            && s4.reply == PasswordReset
            && !s4.store[email].isOtpVerified
            && SignIn(s4.store, email, oldPassword).reply == Rejected(InvalidCredentials)
            && SignIn(s4.store, email, newPassword).reply.SignedIn?
  {
    CompareHash(oldPassword, newPassword);
    CompareHash(newPassword, newPassword);
  }
}
