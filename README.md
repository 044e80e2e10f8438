# Credential and password-reset lifecycle of a food-delivery web app

This Dafny project models the authentication core of the application: the
server-side controllers that register users, sign them in and out, sign them
in through Google, and run the three-step password reset (request a
one-time code, verify it, set a new password); and the client-side
forgot-password page with its six-cell code entry and its step-by-step
wizard.

- `credentials.dfy` (module `Credentials`): bcrypt as an abstract digest.
  `Hash` is injective, and `Compare(p, Hash(q))` holds exactly when `p == q`.
  The `user.password || ""` fallback becomes `EmptyText`, which no password
  matches.
- `js_string.dfy` (module `JsString`): JavaScript's `length`, counted in
  UTF-16 code units, used by every length guard.
- `otp_code.dfy` (module `OtpCode`): the randomly drawn code as an `OtpPick`
  in 100000..999999. Its decimal text (`toString`) is always six digits, and
  reading it back gives the drawn integer.
- `auth_spec.dfy` (module `AuthSpec`): the user store (email to record), and
  one pure transition per controller. Each transition returns the new store,
  the reply, and the mail handed to the mailer. It also holds the
  `Request`/`Apply`/`Run` view of a sequence of requests, and the store
  invariant on the reset fields.
- `auth_properties.dfy` (module `AuthProperties`): properties over several
  requests. The code is single use and expires. Only the latest code counts.
  Over any run, resets never outnumber verifications, plus one if the
  account's flag was already up at the start. Passwords change only
  through a reset. Every controller keeps the invariant. The full reset
  scenario succeeds.
- `auth_controller.dfy` (module `AuthController`): class `Controller` holds
  the user collection in a `users` field. Its handlers do early-return guard
  checks and update one record's fields, then store the record. Each handler
  is proved to do what the matching `AuthSpec` transition does.
- `otp_input.dfy` (module `OtpInput`): `handleChange`, `handleKeyDown` and
  `otp.join("")` over the six-cell buffer, with the lemmas that say which
  cells an event rewrites.
- `forgot_password_page.dfy` (module `ForgotPasswordPage`): class `Page`
  holds the page state (step, email, cells, passwords, loading). Each server
  call is abstracted to the request it posts and a success/failure outcome
  that the caller supplies.
- `reset_flow.dfy` (module `ResetFlow`): page and server together. The
  mailed code, typed into the cells, is posted unchanged and verifies. A
  submission with an empty cell is refused.

`Date.now()` is an integer parameter in milliseconds. The random draw is a
nondeterministic choice inside `Controller.SendOtp`, and a parameter of the
pure transition.

On these points the model follows the code exactly:
- `verifyOtp` rejects only when the expiry is strictly before now, so a code
  whose expiry equals the current time is still accepted.
- The session replies return the whole stored record (`{ user }`), so
  `Reply` carries the record, hash and reset fields included.
- `sendOtp` also rejects an empty email ("Email is required").
- A reset without a verified code is answered 400 "OTP verification
  required".

## Model

| member | source | states |
|---|---|---|
| Credentials.StoredText | backend/controllers/auth.controllers.js:41 | the compared text is empty exactly when the record has no password, and is the stored digest otherwise |
| Credentials.HashInjective | backend/controllers/auth.controllers.js:23 | two passwords have the same digest if and only if they are equal |
| Credentials.CompareHash | backend/controllers/auth.controllers.js:41 | a password matches the digest of q if and only if it is q |
| Credentials.CompareEmpty | backend/controllers/auth.controllers.js:41 | no password matches the "" used for a record without a password |
| JsString.CodeUnits | backend/controllers/auth.controllers.js:18 | a character takes two UTF-16 code units exactly when it is U+10000 or above, one otherwise |
| JsString.Utf16Length | backend/controllers/auth.controllers.js:18 | `s.length` in code units lies between the number of characters and twice it |
| JsString.BmpLength | backend/controllers/auth.controllers.js:20 | without characters beyond U+FFFF the length is the number of characters |
| JsString.EmojiLength | backend/controllers/auth.controllers.js:108 | three emoji have length 6 |
| OtpCode.DecimalString | backend/controllers/auth.controllers.js:70 | the decimal text of a number is non-empty and all digits |
| OtpCode.DecimalRoundTrip | backend/controllers/auth.controllers.js:70 | reading back the decimal text of n gives n |
| OtpCode.DecimalLength | backend/controllers/auth.controllers.js:70 | a number between 10^k and 10^(k+1) has a text of k+1 digits |
| OtpCode.OtpString | backend/controllers/auth.controllers.js:70 | the text of any drawn code is six decimal digits and denotes the draw |
| OtpCode.OtpStringInjective | backend/controllers/auth.controllers.js:70 | two draws give the same code text if and only if they are equal |
| AuthSpec.Status | backend/controllers/auth.controllers.js:13-138 | 201 exactly for a registration, 400 exactly for a guard rejection, 500 exactly for a fault, 200 otherwise |
| AuthSpec.SessionFor | backend/controllers/auth.controllers.js:26-27 | a session cookie is set exactly on registration, sign-in and Google sign-in, for the account replied with |
| AuthSpec.SignUp | backend/controllers/auth.controllers.js:13-33 | an existing email is rejected first, then a missing password or one under 6 UTF-16 code units, then a missing mobile or one under 10 code units, each with the store unchanged; success adds exactly one record, holding the digest of the password, no reset state, other records untouched |
| AuthSpec.SignIn | backend/controllers/auth.controllers.js:35-51 | never changes the store; unknown email is rejected; succeeds if and only if the password matches the stored digest (or "" when none), else "Invalid credentials" |
| AuthSpec.SignOut | backend/controllers/auth.controllers.js:53-60 | leaves the store unchanged and issues no session |
| AuthSpec.SendOtp | backend/controllers/auth.controllers.js:62-81 | empty email, then unknown email, rejected with no change; otherwise the account alone gets a fresh six-digit code, expiry now + 300000 ms and a lowered flag, its other fields kept, and the code is mailed to it |
| AuthSpec.VerifyOtp | backend/controllers/auth.controllers.js:83-103 | succeeds if and only if the account exists, its code equals the supplied one and its expiry is set and not before now; success raises the flag and clears code and expiry, failure changes nothing |
| AuthSpec.ResetPassword | backend/controllers/auth.controllers.js:105-124 | a missing new password or one under 6 UTF-16 code units is rejected before any lookup; succeeds if and only if the account exists with its flag up; success stores the new digest and lowers the flag, failure changes nothing |
| AuthSpec.GoogleAuth | backend/controllers/auth.controllers.js:126-138 | always signs in; an existing account is left as it is; a new email gets one record without a password and with no reset state |
| AuthSpec.GoogleAuthAsWritten | backend/controllers/auth.controllers.js:130 | for a new email the positional `User.create` call stores nothing and the handler answers 500; an existing account is signed in with its stored record, store unchanged |
| AuthProperties.SignInAfterSignUp | backend/controllers/auth.controllers.js:23-42 | after a registration, sign-in succeeds with the registered password and fails with "Invalid credentials" for every other |
| AuthProperties.EmojiPasswordAccepted | backend/controllers/auth.controllers.js:18-24 | a new email registers with a password of three emoji, whose length in code units is 6 |
| AuthProperties.GoogleAccountRejectsPasswords | backend/controllers/auth.controllers.js:41 | an account created by Google sign-in rejects every password |
| AuthProperties.GoogleFirstSignInDiscrepancy | backend/controllers/auth.controllers.js:130 | on a new email, the code as written answers 500 without a session or record, where the intended one answers 200 with both |
| AuthProperties.VerifyIsSingleUse | backend/controllers/auth.controllers.js:94-97 | after a successful verification the same code is refused at any later time |
| AuthProperties.OtpExpiryGate | backend/controllers/auth.controllers.js:72-91 | the code just sent verifies if and only if now is at most five minutes after it was sent |
| AuthProperties.OnlyLatestCodeVerifies | backend/controllers/auth.controllers.js:70-73 | after a second request with a different draw, the first code is refused |
| AuthProperties.MissingCodeNeverVerifies | backend/controllers/auth.controllers.js:89-90 | under the store invariant, a request with no code never verifies |
| AuthProperties.ResetOncePerVerify | backend/controllers/auth.controllers.js:112-117 | after a successful reset, a second reset is refused, with "OTP verification required" when the password is acceptable |
| AuthProperties.StepAccounting | backend/controllers/auth.controllers.js:73-117 | in one request, only a successful verification of the account raises its flag, and a successful reset of it consumes a raised flag |
| AuthProperties.ResetsBoundedByVerifies | backend/controllers/auth.controllers.js:112-117 | over any sequence of requests, successful resets of an account plus its final flag never exceed its successful verifications plus its initial flag |
| AuthProperties.NoResetWithoutVerify | backend/controllers/auth.controllers.js:112-113 | from a lowered flag, no reset succeeds in a run with no successful verification |
| AuthProperties.PasswordChangesOnlyByReset | backend/controllers/auth.controllers.js:116 | no request removes an account, and a stored digest changes only by a successful reset of that account, to the digest of its new password |
| AuthProperties.SessionOnlyForStoredAccount | backend/controllers/auth.controllers.js:41-45 | a session is issued only for a stored account, and a password sign-in session only when the password matches |
| AuthProperties.ApplyPreservesInvariant | backend/controllers/auth.controllers.js:62-124 | every controller keeps code and expiry set together, stored codes six digits, and a raised flag only with the code consumed |
| AuthProperties.RunPreservesInvariant | backend/controllers/auth.controllers.js:62-124 | any sequence of requests keeps that invariant |
| AuthProperties.PasswordResetScenario | backend/controllers/auth.controllers.js:62-124 | register, send, verify the mailed code in time, reset: each succeeds, the flag ends down, the old password fails and the new one signs in |
| AuthController.Controller.SignUp | backend/controllers/auth.controllers.js:13-33 | the handler's guards (length in UTF-16 code units) and its new store and reply are those of `AuthSpec.SignUp`, and the invariant is kept |
| AuthController.Controller.SignIn | backend/controllers/auth.controllers.js:35-51 | the reply is that of `AuthSpec.SignIn`; the store is not modified |
| AuthController.Controller.SignOut | backend/controllers/auth.controllers.js:53-60 | replies signed out, issues no session and modifies nothing |
| AuthController.Controller.SendOtp | backend/controllers/auth.controllers.js:62-81 | for the code it draws, the new store, reply and mail are those of `AuthSpec.SendOtp`, and the invariant is kept |
| AuthController.Controller.VerifyOtp | backend/controllers/auth.controllers.js:83-103 | the new store and reply are those of `AuthSpec.VerifyOtp`, and the invariant is kept |
| AuthController.Controller.ResetPassword | backend/controllers/auth.controllers.js:105-124 | the handler's guards (length in UTF-16 code units) and its new store and reply are those of `AuthSpec.ResetPassword`, and the invariant is kept |
| AuthController.Controller.GoogleAuth | backend/controllers/auth.controllers.js:126-138 | the new store and reply are those of the intended `AuthSpec.GoogleAuth`, and the invariant is kept |
| OtpInput.EmptyBuffer | frontend/src/pages/ForgotPassword.jsx:10 | the initial buffer has six cells, all empty |
| OtpInput.LastChar | frontend/src/pages/ForgotPassword.jsx:27 | at most one character: empty exactly for empty input, else the input's last character |
| OtpInput.HandleChange | frontend/src/pages/ForgotPassword.jsx:22-33 | non-digit input leaves the buffer as it was; otherwise only the edited cell changes, to the input's last character; focus moves to the next cell exactly for non-empty digit input before the last cell; cells stay empty or one digit |
| OtpInput.HandleKeyDown | frontend/src/pages/ForgotPassword.jsx:35-53 | Backspace clears only the current cell if it is filled, else only the previous cell (none at cell 0); arrows and other keys never change the cells, arrows move focus within bounds |
| OtpInput.Join | frontend/src/pages/ForgotPassword.jsx:80 | over empty-or-digit cells the posted code is a digit string no longer than the number of cells |
| OtpInput.JoinSingletons | frontend/src/pages/ForgotPassword.jsx:80 | when cell i holds code[i] for every i, the posted code is exactly code |
| OtpInput.JoinWithEmptyCellIsShort | frontend/src/pages/ForgotPassword.jsx:80 | a buffer with an empty cell posts a code shorter than the number of cells |
| OtpInput.TypeFromCells | frontend/src/pages/ForgotPassword.jsx:22-33 | typing code digits from cell i onward leaves earlier cells alone and puts each digit in its own cell |
| OtpInput.TypedCodeJoins | frontend/src/pages/ForgotPassword.jsx:76-88 | a six-digit code typed into the empty buffer gives a well-formed buffer that posts that code |
| ForgotPasswordPage.NextStep | frontend/src/pages/ForgotPassword.jsx:55-88 | a failed call leaves the step; a successful send or resend goes to step 2; step 3 is reached only by a successful check or by staying there |
| ForgotPasswordPage.StepsAdvanceOnlyOnSuccess | frontend/src/pages/ForgotPassword.jsx:118-277 | on any run of the forms the page offers, the step never goes back, reaches 2 only after a successful send and 3 only after a successful code check |
| ForgotPasswordPage.Page.constructor | frontend/src/pages/ForgotPassword.jsx:8-14 | step 1, empty email and passwords, six empty cells, not loading |
| ForgotPasswordPage.Page.SetEmail | frontend/src/pages/ForgotPassword.jsx:144 | the email field takes the typed value |
| ForgotPasswordPage.Page.SetNewPassword | frontend/src/pages/ForgotPassword.jsx:301 | the new-password field takes the typed value |
| ForgotPasswordPage.Page.SetConfirmPassword | frontend/src/pages/ForgotPassword.jsx:321 | the confirmation field takes the typed value |
| ForgotPasswordPage.Page.ChangeDigit | frontend/src/pages/ForgotPassword.jsx:22-33 | the cells become those of `HandleChange`, and stay six empty-or-digit cells |
| ForgotPasswordPage.Page.KeyDown | frontend/src/pages/ForgotPassword.jsx:35-53 | the cells become those of `HandleKeyDown`, and stay six empty-or-digit cells |
| ForgotPasswordPage.Page.HandleForgot | frontend/src/pages/ForgotPassword.jsx:55-74 | posts the email; step 2 on success, unchanged on failure; not loading afterwards |
| ForgotPasswordPage.Page.ResendOtp | frontend/src/pages/ForgotPassword.jsx:257-272 | posts the email again; step 2 on success, unchanged on failure |
| ForgotPasswordPage.Page.HandleVerifyOtp | frontend/src/pages/ForgotPassword.jsx:76-88 | posts the email with the joined cells, at most six characters; step 3 on success, unchanged on failure |
| ForgotPasswordPage.Page.HandleResetPassword | frontend/src/pages/ForgotPassword.jsx:90-113 | mismatched passwords post nothing and change nothing; otherwise posts the new password and goes to sign-in exactly on success |
| ResetFlow.TypedMailedCodeVerifies | frontend/src/pages/ForgotPassword.jsx:76-88 | the mailed code typed into the cells is posted unchanged and verifies on the server within five minutes of sending |
| ResetFlow.IncompleteEntryRejected | backend/controllers/auth.controllers.js:89-91 | a submission with an empty cell never verifies |

## Left out

- Session tokens: `genToken`, the cookie options and `res.cookie`/`res.clearCookie` are reduced to `SessionFor`, the account a reply issues a session for. Token contents, signing and expiry are not modelled.
- 500 answers from failing collaborators are not modelled: an unavailable store, a throwing bcrypt call (for example `signIn` with no password in the body, which is why `SignIn` takes a plain string), or a failing `sendMail`. A failing `sendMail` would answer 500 after the new code was already saved. The one 500 that is modelled is the `gooogleAuth` creation fault under "## Findings".
- Request-body typing: email is always a string, and a missing email is the empty string. A missing fullName, role, password, mobile, new password or code is `None`; the sign-in page's Google button posts only the email, so there fullName, role and mobile are `None`. Non-string JSON values, and store queries on an undefined email, are not modelled.
- Credentials.HashInjective: bcrypt salts each digest and reads only the first 72 bytes of a password; the model gives one digest per password and distinguishes all passwords, so two long passwords sharing their first 72 bytes match in bcrypt but not in the model.
- Concurrency: each handler runs atomically. Interleaved async requests (last writer wins on the same record) are not modelled. Neither is the page's `loading` flag disabling its buttons while a call is in flight.
- The user schema (`user.model.js`) is not part of this model. Roles stay plain strings. The store invariant is a precondition on the initial store rather than a schema fact.
- bcrypt salt, cost factor and timing behaviour; the float arithmetic of `Math.random`.
- The page's rendering, toasts, navigation beyond the `leftForSignIn` flag, `e.preventDefault`, and the DOM focus calls. Focus is returned as the index the handler asks to focus.
- backend/middlewares/isAuth.js, backend/controllers/user.controllers.js, backend/routes/auth.routes.js, frontend/src/context/ToastContext.jsx, frontend/src/pages/SignUp.jsx, frontend/src/pages/SignIn.jsx, frontend/src/App.jsx and frontend/firebase.js are not part of this model. They are token verification, lookup by id, route wiring, UI notifications, form pages, a route guard and configuration.

## Findings

| source | as written | input that shows it | evidently intended | confidence | as-written member | corrected member |
|---|---|---|---|---|---|---|
| backend/controllers/auth.controllers.js:130 | `User.create(fullName, email, mobile, role)` passes positional values where a keyed document is expected, so no record with the given email is created and the catch block answers 500 | Google sign-in with an email not yet in the store | create `{ fullName, email, mobile, role }` without a password and sign the user in | medium, not executed | AuthSpec.GoogleAuthAsWritten (discrepancy shown by AuthProperties.GoogleFirstSignInDiscrepancy) | AuthSpec.GoogleAuth (used by `Apply` and `Controller.GoogleAuth`) |
