/** The forgot-password page as a state machine: step 1 asks for the email,
    step 2 takes the six-digit code, step 3 the new password. A step
    advances only when its server call succeeds; every server call is
    abstracted to the request it posts and an outcome the caller supplies. */
module ForgotPasswordPage {

  import opened Wrappers
  import opened OtpInput

  /** How a server call ended: a 2xx answer, or an error the page shows. */
  datatype Outcome = Success | Failure

  /** The request body a handler posts. */
  datatype Post =
    | ForgotPost(email: string)
    | VerifyPost(email: string, otp: string)
    | ResetPost(email: string, newPassword: string)

  /** The submissions that can change the step. */
  datatype Event = SendCode(outcome: Outcome) | ResendCode(outcome: Outcome) | CheckCode(outcome: Outcome)

  /** The step after a submission: a successful send or resend shows the code
      form, a successful check shows the password form, a failure stays. */
  function NextStep(step: int, ev: Event): (next: int)
    ensures ev.outcome.Failure? ==> next == step
    ensures next == 3 <==> (ev.CheckCode? && ev.outcome.Success?) || (step == 3 && ev.outcome.Failure?)
    ensures ev.outcome.Success? && !ev.CheckCode? ==> next == 2
  {
    if ev.outcome.Failure? then step
    else if ev.CheckCode? then 3
    else 2
  }

  /** The page offers each submission only on its own step: the email form
      on step 1, the code form and its resend button on step 2. */
  predicate Offered(step: int, ev: Event)
  {
    match ev
    case SendCode(_) => step == 1
    case ResendCode(_) => step == 2
    case CheckCode(_) => step == 2
  }

  function StepAfter(step: int, evs: seq<Event>): int
    decreases |evs|
  {
    if evs == [] then step else StepAfter(NextStep(step, evs[0]), evs[1..])
  }

  predicate OfferedRun(step: int, evs: seq<Event>)
    decreases |evs|
  {
    evs == [] || (Offered(step, evs[0]) && OfferedRun(NextStep(step, evs[0]), evs[1..]))
  }

  /** On any run of submissions the page offers, the step never goes back,
      reaches 2 only through a successful send, and reaches 3 only through a
      successful check of the code. */
  lemma {:induction false} StepsAdvanceOnlyOnSuccess(step: int, evs: seq<Event>)
    requires 1 <= step <= 3 && OfferedRun(step, evs)
    ensures step <= StepAfter(step, evs) <= 3
    ensures step == 1 && StepAfter(step, evs) >= 2 ==> SendCode(Success) in evs
    ensures step < 3 && StepAfter(step, evs) == 3 ==> CheckCode(Success) in evs
    decreases |evs|
  {
    if evs != [] {
      StepsAdvanceOnlyOnSuccess(NextStep(step, evs[0]), evs[1..]);
      assert evs == [evs[0]] + evs[1..];
    }
  }

  class Page {
    var step: int
    var email: string
    var otp: seq<string>
    var newPassword: string
    var confirmPassword: string
    var loading: bool
    /** Set once the page has navigated to the sign-in page. */
    var leftForSignIn: bool

    ghost predicate Valid()
      reads this
    {
      1 <= step <= 3 && WellFormed(otp)
    }

    constructor ()
      ensures Valid()
      ensures step == 1 && email == "" && otp == EmptyBuffer()
      ensures newPassword == "" && confirmPassword == "" && !loading && !leftForSignIn
    {
      step := 1;
      email := "";
      otp := EmptyBuffer();
      newPassword := "";
      confirmPassword := "";
      loading := false;
      leftForSignIn := false;
    }

    method SetEmail(value: string)
      modifies this`email
      ensures email == value
    {
      email := value;
    }

    method SetNewPassword(value: string)
      modifies this`newPassword
      ensures newPassword == value
    {
      newPassword := value;
    }

    method SetConfirmPassword(value: string)
      modifies this`confirmPassword
      ensures confirmPassword == value
    {
      confirmPassword := value;
    }

    /** A change event on the code cell `index`; returns the cell to focus. */
    method ChangeDigit(index: int, val: string) returns (focus: Option<int>)
      requires Valid() && 0 <= index < |otp|
      modifies this`otp
      ensures Valid()
      ensures var edit := HandleChange(old(otp), index, val);
              otp == edit.otp && focus == edit.focus
    {
      var edit := HandleChange(otp, index, val);
      otp := edit.otp;
      focus := edit.focus;
    }

    /** A key-down event on the code cell `index`; returns the cell to focus. */
    method KeyDown(index: int, key: Key) returns (focus: Option<int>)
      requires Valid() && 0 <= index < |otp|
      modifies this`otp
      ensures Valid()
      ensures var edit := HandleKeyDown(old(otp), index, key);
              otp == edit.otp && focus == edit.focus
    {
      var edit := HandleKeyDown(otp, index, key);
      otp := edit.otp;
      focus := edit.focus;
    }

    /** `handleForgot`: post the email; on success show the code form. */
    method HandleForgot(outcome: Outcome) returns (post: Post)
      requires Valid()
      modifies this`step, this`loading
      ensures Valid()
      ensures post == ForgotPost(email)
      ensures step == NextStep(old(step), SendCode(outcome))
      ensures !loading
    {
      loading := true;
      post := ForgotPost(email);
      if outcome == Success {
        step := 2;
      }
      loading := false;
    }

    /** The resend button of the code form: post the email again; on success
        stay on (or return to) the code form. It does not touch `loading`. */
    method ResendOtp(outcome: Outcome) returns (post: Post)
      requires Valid()
      modifies this`step
      ensures Valid()
      ensures post == ForgotPost(email)
      ensures step == NextStep(old(step), ResendCode(outcome))
    {
      post := ForgotPost(email);
      if outcome == Success {
        step := 2;
      }
    }

    /** `handleVerifyOtp`: post the joined cells; on success show the password
        form. The cells are not cleared. */
    method HandleVerifyOtp(outcome: Outcome) returns (post: Post)
      requires Valid()
      modifies this`step, this`loading
      ensures Valid()
      ensures post == VerifyPost(email, Join(otp))
      ensures |post.otp| <= OTP_LENGTH
      ensures step == NextStep(old(step), CheckCode(outcome))
      ensures !loading
    {
      loading := true;
      var code := Join(otp);
      post := VerifyPost(email, code);
      if outcome == Success {
        step := 3;
      }
      loading := false;
    }

    /** `handleResetPassword`: a password and confirmation that differ are
        refused on the page, with no request and no state change; otherwise
        post the new password and, on success, go to the sign-in page. */
    method HandleResetPassword(outcome: Outcome) returns (post: Option<Post>)
      requires Valid()
      modifies this`loading, this`leftForSignIn
      ensures Valid()
      ensures newPassword != confirmPassword ==>
                post.None? && loading == old(loading) && leftForSignIn == old(leftForSignIn)
      ensures newPassword == confirmPassword ==>
                && post == Some(ResetPost(email, newPassword))
                && !loading
                && leftForSignIn == (old(leftForSignIn) || outcome == Success)
    {
      if newPassword != confirmPassword {
        return None;
      }
      loading := true;
      post := Some(ResetPost(email, newPassword));
      if outcome == Success {
        leftForSignIn := true;
      }
      loading := false;
    }
  }
}
