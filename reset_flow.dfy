/** The forgot-password page and the controllers together: what the page
    posts as the code is what the server compares against the stored one. */
module ResetFlow {

  import opened Wrappers
  import opened OtpCode
  import opened AuthSpec
  import opened OtpInput

  /** The mailed code, typed digit by digit into the empty cells, is posted
      unchanged and verifies on the server until five minutes after it was
      sent. */
  lemma TypedMailedCodeVerifies(s: Store, email: string, sentAt: int, pick: OtpPick, now: int)
    requires email != "" && email in s
    requires now <= sentAt + OTP_TTL_MS
    ensures var sent := SendOtp(s, email, sentAt, pick);
            var typed := TypeFrom(EmptyBuffer(), sent.mail.value.code, 0);
            && WellFormed(typed)
            && VerifyOtp(sent.store, email, Some(Join(typed)), now).reply == OtpVerified
  {
    TypedCodeJoins(OtpString(pick));
  }

  /** A submission with an empty cell is too short to equal any stored code,
      so the server refuses it. */
  lemma IncompleteEntryRejected(s: Store, email: string, otp: seq<string>, k: int, now: int)
    requires StoreInvariant(s)
    requires WellFormed(otp) && 0 <= k < |otp| && otp[k] == ""
    ensures VerifyOtp(s, email, Some(Join(otp)), now).reply != OtpVerified
  {
    JoinWithEmptyCellIsShort(otp, k);
    if email in s {
      assert ResetStateCoherent(s[email]);
    }
  }
}
