/** The account credential lifecycle of `accounts/views.py` as values: three tables (accounts,
    pending registrations, reset tokens) and one specification function per view, each giving
    the tables after the view, the view's outcome and the mail it sends. The class in
    credential_store.dfy updates real fields step by step and is proved against these. */
module Accounts {
  import opened Optional
  import opened Text

  /** `get_random_string(10)` for verification codes, `get_random_string(20)` for reset tokens. */
  const VerificationCodeLength := 10
  const ResetTokenLength := 20

  /** A stored password hash. The hasher and its salt are not modelled: a hash records only
      which raw password it was made from. Verification copies the stored value unchanged and
      computes no new hash. */
  datatype PasswordHash = Hashed(password: string)

  /** A registration waiting for its code: `PendingUser(email, password, verification_code, created_at)`. */
  datatype PendingUser = PendingUser(password: PasswordHash, code: string, createdAt: int)

  datatype TokenType = PasswordResetToken

  /** A `Token` row; its owner and type are the key it is stored under. */
  datatype Token = Token(value: string, createdAt: int)

  /** The unique key of the token table: the owning account (by its e-mail) and the type. */
  type TokenKey = (string, TokenType)

  /** The three tables. Each is a map, so one row per e-mail and one token per (user, type)
      hold by construction, as the unique keys of the database do. */
  datatype Store = Store(
    accounts: map<string, PasswordHash>,
    pending: map<string, PendingUser>,
    tokens: map<TokenKey, Token>)

  /** `is_valid()` of a pending user or a token: whether a row created at `createdAt` may
      still be used at `now`. Its rule lives outside this model, so it is a parameter. */
  type Validity = (int, int) -> bool

  /** What each view tells the user (the message it shows). */
  datatype Outcome =
    | CodeSent              // register: "Verification code sent to ..."
    | EmailExists           // register: "Email already exists."
    | AccountVerified       // verify_account: success
    | InvalidOrExpiredCode  // verify_account: "Invalid or expired verification code."
    | ResetLinkSent         // send_password_reset_link: success
    | EmailNotFound         // send_password_reset_link: "Email not found."
    | MissingEmailOrToken   // set_new_password: "Missing email or token."
    | PasswordsRequired     // set_new_password: "Both password fields are required."
    | PasswordsDiffer       // set_new_password: "Passwords do not match."
    | InvalidOrExpiredLink  // set_new_password: no such token
    | LinkExpired           // set_new_password: token past its validity
    | PasswordChanged       // set_new_password: success

  /** A message handed to `send_mail`. */
  datatype Mail =
    | VerificationMail(to: string, code: string)
    | ResetLinkMail(to: string, linkEmail: string, linkToken: string)

  /** The effect of one view: the tables afterwards, the outcome and the mail sent. */
  datatype Step = Step(store: Store, outcome: Outcome, sent: seq<Mail>)

  /** `PendingUser.objects.filter(verification_code=code, email=email).first()` finds a row. */
  predicate PendingMatches(s: Store, email: string, code: string) {
    email in s.pending && s.pending[email].code == code
  }

  /** A password-reset token of the account `email` whose value is `value` exists. */
  predicate TokenMatches(s: Store, email: string, value: string) {
    var key := (email, PasswordResetToken);
    key in s.tokens && s.tokens[key].value == value
  }

  /** Python truthiness of an optional form field: present and not the empty string. */
  predicate Present(field: Option<string>) {
    field.Some? && field.value != ""
  }

  /** The tables as every view leaves them: account and pending e-mails are lower-case (they
      come from `register`, which lower-cases), no e-mail is both pending and an account, and
      every token belongs to an existing account. */
  ghost predicate Consistent(s: Store) {
    && (forall e :: e in s.accounts ==> IsLower(e))
    && (forall e :: e in s.pending ==> IsLower(e) && e !in s.accounts)
    && (forall k :: k in s.tokens ==> k.0 in s.accounts)
  }

  // ---------------------------------------------------------------- register

  /** `register`: lower-case the e-mail; refuse it if an account has it; otherwise replace any
      pending registration for it by the new hash, code and time, and mail the code. */
  function Register(s: Store, email: string, password: string, code: string, now: int): (r: Step)
    requires |code| == VerificationCodeLength
    ensures r.outcome == EmailExists <==> Lower(email) in s.accounts
    ensures r.outcome == EmailExists || r.outcome == CodeSent
    ensures r.outcome == EmailExists ==> r.store == s && r.sent == []
    ensures r.outcome == CodeSent ==>
      && r.store.accounts == s.accounts
      && r.store.tokens == s.tokens
      && r.store.pending.Keys == s.pending.Keys + {Lower(email)}
      && r.store.pending[Lower(email)] == PendingUser(Hashed(password), code, now)
      && (forall e :: e in s.pending && e != Lower(email) ==> r.store.pending[e] == s.pending[e])
      && r.sent == [VerificationMail(Lower(email), code)]
  {
    var e := Lower(email);
    if e in s.accounts then
      Step(s, EmailExists, [])
    else
      Step(s.(pending := s.pending[e := PendingUser(Hashed(password), code, now)]),
           CodeSent, [VerificationMail(e, code)])
  }

  // ---------------------------------------------------------------- verify_account

  /** `verify_account`: the e-mail is used exactly as posted (not lower-cased). A pending row
      matching e-mail and code that is still valid becomes an account holding the stored hash
      unchanged, and the pending row is deleted. */
  function VerifyAccount(s: Store, valid: Validity, email: string, code: string, now: int): (r: Step)
    ensures r.outcome == AccountVerified <==>
      PendingMatches(s, email, code) && valid(s.pending[email].createdAt, now)
    ensures r.outcome != AccountVerified ==> r.outcome == InvalidOrExpiredCode && r.store == s
    ensures r.outcome == AccountVerified ==>
      && r.store.accounts == s.accounts[email := s.pending[email].password]
      && r.store.pending == s.pending - {email}
      && r.store.tokens == s.tokens
    ensures r.sent == []
  {
    if email in s.pending && s.pending[email].code == code && valid(s.pending[email].createdAt, now) then
      var p := s.pending[email];
      Step(Store(s.accounts[email := p.password], s.pending - {email}, s.tokens), AccountVerified, [])
    else
      Step(s, InvalidOrExpiredCode, [])
  }

  // ---------------------------------------------------------------- send_password_reset_link

  /** `send_password_reset_link`: lower-case the e-mail; an unknown address changes nothing;
      otherwise the account's reset token is created or replaced by the fresh value and time,
      and the link carrying e-mail and token is mailed. */
  function SendPasswordResetLink(s: Store, email: string, token: string, now: int): (r: Step)
    requires |token| == ResetTokenLength
    ensures r.outcome == EmailNotFound <==> Lower(email) !in s.accounts
    ensures r.outcome == EmailNotFound || r.outcome == ResetLinkSent
    ensures r.outcome == EmailNotFound ==> r.store == s && r.sent == []
    ensures r.outcome == ResetLinkSent ==>
      && r.store.accounts == s.accounts
      && r.store.pending == s.pending
      && r.store.tokens.Keys == s.tokens.Keys + {(Lower(email), PasswordResetToken)}
      && r.store.tokens[(Lower(email), PasswordResetToken)] == Token(token, now)
      && (forall k :: k in s.tokens && k != (Lower(email), PasswordResetToken) ==> r.store.tokens[k] == s.tokens[k])
      && r.sent == [ResetLinkMail(Lower(email), Lower(email), token)]
  {
    var e := Lower(email);
    if e !in s.accounts then
      Step(s, EmailNotFound, [])
    else
      Step(s.(tokens := s.tokens[(e, PasswordResetToken) := Token(token, now)]),
           ResetLinkSent, [ResetLinkMail(e, e, token)])
  }

  // ---------------------------------------------------------------- verify_password_reset_link

  /** `verify_password_reset_link`: the reset form is shown exactly when both query
      parameters are given and a still-valid reset token of that account has that value. */
  function ResetLinkAccepted(s: Store, valid: Validity, email: Option<string>, token: Option<string>, now: int): (ok: bool)
    ensures ok <==>
      && email.Some? && token.Some?
      && TokenMatches(s, email.value, token.value)
      && valid(s.tokens[(email.value, PasswordResetToken)].createdAt, now)
  {
    match (email, token)
    case (Some(e), Some(t)) =>
      var key := (e, PasswordResetToken);
      key in s.tokens && s.tokens[key].value == t && valid(s.tokens[key].createdAt, now)
    case _ => false
  }

  // ---------------------------------------------------------------- set_new_password

  /** `set_new_password`: five guards in order (e-mail and token given, both passwords given,
      passwords equal, token found, token valid); only when all pass is the account's password
      set to the hash of the new one and the token deleted. */
  function SetNewPassword(s: Store, valid: Validity, email: Option<string>, token: Option<string>,
                          password1: Option<string>, password2: Option<string>, now: int): (r: Step)
    ensures r.outcome != PasswordChanged ==> r.store == s
    ensures r.sent == []
    ensures r.outcome == MissingEmailOrToken <==> !(Present(email) && Present(token))
    ensures r.outcome == PasswordsRequired <==>
      Present(email) && Present(token) && !(Present(password1) && Present(password2))
    ensures r.outcome == PasswordsDiffer <==>
      Present(email) && Present(token) && Present(password1) && Present(password2)
      && password1.value != password2.value
    ensures r.outcome == InvalidOrExpiredLink <==>
      Present(email) && Present(token) && Present(password1) && Present(password2)
      && password1.value == password2.value
      && !TokenMatches(s, email.value, token.value)
    ensures r.outcome == LinkExpired <==>
      Present(email) && Present(token) && Present(password1) && Present(password2)
      && password1.value == password2.value
      && TokenMatches(s, email.value, token.value)
      && !valid(s.tokens[(email.value, PasswordResetToken)].createdAt, now)
    ensures r.outcome == PasswordChanged <==>
      Present(email) && Present(token) && Present(password1) && Present(password2)
      && password1.value == password2.value
      && TokenMatches(s, email.value, token.value)
      && valid(s.tokens[(email.value, PasswordResetToken)].createdAt, now)
    ensures r.outcome == PasswordChanged ==>
      && r.store.accounts == s.accounts[email.value := Hashed(password1.value)]
      && r.store.pending == s.pending
      && r.store.tokens == s.tokens - {(email.value, PasswordResetToken)}
  {
    if !(Present(email) && Present(token)) then
      Step(s, MissingEmailOrToken, [])
    else if !Present(password1) || !Present(password2) then
      Step(s, PasswordsRequired, [])
    else if password1.value != password2.value then
      Step(s, PasswordsDiffer, [])
    else
      var key := (email.value, PasswordResetToken);
      if key !in s.tokens || s.tokens[key].value != token.value then
        Step(s, InvalidOrExpiredLink, [])
      else if !valid(s.tokens[key].createdAt, now) then
        Step(s, LinkExpired, [])
      else
        Step(Store(s.accounts[email.value := Hashed(password1.value)], s.pending, s.tokens - {key}),
             PasswordChanged, [])
  }
}
