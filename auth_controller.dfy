/** The authentication controllers as handlers over a mutable user
    collection. Each handler looks the account up, returns early on a failed
    guard, and otherwise assigns fields of the one record and saves it (or
    inserts a new one). Each is proved to do exactly what the matching
    transition of `AuthSpec` says, and to keep the store invariant. */
module AuthController {

  import opened Wrappers
  import opened Credentials
  import opened OtpCode
  import opened AuthSpec
  import opened JsString
  import AuthProperties

  /** The user collection the controllers query and save into. */
  class Controller {
    var users: Store

    ghost predicate Valid()
      reads this
    {
      StoreInvariant(users)
    }

    constructor (initial: Store)
      requires StoreInvariant(initial)
      ensures Valid() && users == initial
    {
      users := initial;
    }

    method SignUp(fullName: Option<string>, email: string, password: Option<string>,
                  mobile: Option<string>, role: Option<string>) returns (reply: Reply)
      requires Valid()
      modifies this
      ensures Valid()
      ensures var step := AuthSpec.SignUp(old(users), fullName, email, password, mobile, role);
              users == step.store && reply == step.reply
    {
      ghost var before := users;
      AuthProperties.ApplyPreservesInvariant(before, SignUpReq(fullName, email, password, mobile, role));
      if email in users {
        return Rejected(UserAlreadyExists);
      }
      if password.None? || Utf16Length(password.value) < MIN_PASSWORD_LENGTH {
        return Rejected(PasswordTooShort);
      }
      if mobile.None? || Utf16Length(mobile.value) < MIN_MOBILE_LENGTH {
        return Rejected(MobileTooShort);
      }
      var hashed := Hash(password.value);
      var user := UserRecord(fullName, Some(hashed), mobile, role, None, None, false);
      users := users[email := user];
      reply := Registered(email, user);
    }

    method SignIn(email: string, password: string) returns (reply: Reply)
      ensures reply == AuthSpec.SignIn(users, email, password).reply
    {
      if email !in users {
        return Rejected(UserDoesNotExist);
      }
      var user := users[email];
      var isMatch := Compare(password, StoredText(user.password));
      if !isMatch {
        return Rejected(InvalidCredentials);
      }
      reply := SignedIn(email, user);
    }

    method SignOut() returns (reply: Reply)
      ensures reply == SignedOut && SessionFor(reply).None?
    {
      reply := SignedOut;
    }

    /** The code is drawn here; `pick` names the draw for the contract. */
    method SendOtp(email: string, now: int) returns (reply: Reply, mail: Option<Mail>, ghost pick: OtpPick)
      requires Valid()
      modifies this
      ensures Valid()
      ensures var step := AuthSpec.SendOtp(old(users), email, now, pick);
              users == step.store && reply == step.reply && mail == step.mail
    {
      pick := OTP_MIN;
      if email == "" {
        return Rejected(EmailRequired), None, pick;
      }
      if email !in users {
        return Rejected(UserDoesNotExist), None, pick;
      }
      var drawn: int :| OTP_MIN <= drawn <= OTP_MAX;
      pick := drawn;
      ghost var before := users;
      AuthProperties.ApplyPreservesInvariant(before, SendOtpReq(email, now, pick));
      var otp := OtpString(drawn);
      var user := users[email];
      user := user.(resetOtp := Some(otp));
      user := user.(otpExpiry := Some(now + OTP_TTL_MS));
      user := user.(isOtpVerified := false);
      users := users[email := user];
      mail := Some(Mail(email, otp));
      reply := OtpSent;
    }

    method VerifyOtp(email: string, otp: Option<string>, now: int) returns (reply: Reply)
      requires Valid()
      modifies this
      ensures Valid()
      ensures var step := AuthSpec.VerifyOtp(old(users), email, otp, now);
              users == step.store && reply == step.reply
    {
      ghost var before := users;
      AuthProperties.ApplyPreservesInvariant(before, VerifyOtpReq(email, otp, now));
      if email !in users {
        return Rejected(UserDoesNotExist);
      }
      var user := users[email];
      var expired := user.otpExpiry.None? || user.otpExpiry.value < now;
      if user.resetOtp != otp || expired {
        return Rejected(InvalidOrExpiredOtp);
      }
      user := user.(isOtpVerified := true);
      user := user.(resetOtp := None);
      user := user.(otpExpiry := None);
      users := users[email := user];
      reply := OtpVerified;
    }

    method ResetPassword(email: string, newPassword: Option<string>) returns (reply: Reply)
      requires Valid()
      modifies this
      ensures Valid()
      ensures var step := AuthSpec.ResetPassword(old(users), email, newPassword);
              users == step.store && reply == step.reply
    {
      ghost var before := users;
      AuthProperties.ApplyPreservesInvariant(before, ResetPasswordReq(email, newPassword));
      if newPassword.None? || Utf16Length(newPassword.value) < MIN_PASSWORD_LENGTH {
        return Rejected(PasswordTooShort);
      }
      if email !in users || !users[email].isOtpVerified {
        return Rejected(OtpVerificationRequired);
      }
      var user := users[email];
      user := user.(password := Some(Hash(newPassword.value)));
      user := user.(isOtpVerified := false);
      users := users[email := user];
      reply := PasswordReset;
    }

    /** The intended `gooogleAuth`: create the account without a password if
        the email is new. */
    method GoogleAuth(fullName: Option<string>, email: string, mobile: Option<string>, role: Option<string>)
      returns (reply: Reply)
      requires Valid()
      modifies this
      ensures Valid()
      ensures var step := AuthSpec.GoogleAuth(old(users), fullName, email, mobile, role);
              users == step.store && reply == step.reply
    {
      ghost var before := users;
      AuthProperties.ApplyPreservesInvariant(before, GoogleAuthReq(fullName, email, mobile, role));
      var user;
      if email in users {
        user := users[email];
      } else {
        user := UserRecord(fullName, None, mobile, role, None, None, false);
        users := users[email := user];
      }
      reply := GoogleSignedIn(email, user);
    }
  }
}
