/** What the account views promise across several requests: the tables stay consistent,
    codes and tokens are single-use, and re-issuing a code or token voids the earlier one. */
module AccountsProperties {
  import opened Optional
  import opened Text
  import opened Accounts

  // ---------------------------------------------------------------- the tables stay consistent

  lemma RegisterKeepsConsistent(s: Store, email: string, password: string, code: string, now: int)
    requires Consistent(s) && |code| == VerificationCodeLength
    ensures Consistent(Register(s, email, password, code, now).store)
  {
  }

  lemma VerifyAccountKeepsConsistent(s: Store, valid: Validity, email: string, code: string, now: int)
    requires Consistent(s)
    ensures Consistent(VerifyAccount(s, valid, email, code, now).store)
  {
  }

  lemma SendPasswordResetLinkKeepsConsistent(s: Store, email: string, token: string, now: int)
    requires Consistent(s) && |token| == ResetTokenLength
    ensures Consistent(SendPasswordResetLink(s, email, token, now).store)
  {
  }

  lemma SetNewPasswordKeepsConsistent(s: Store, valid: Validity, email: Option<string>, token: Option<string>,
                                      password1: Option<string>, password2: Option<string>, now: int)
    requires Consistent(s)
    ensures Consistent(SetNewPassword(s, valid, email, token, password1, password2, now).store)
  {
  }

  // ---------------------------------------------------------------- verify_account

  /** In a consistent store the account `verify_account` creates is new: the e-mail had no
      account, so the creation never collides with an existing user. */
  lemma VerifiedAccountIsNew(s: Store, valid: Validity, email: string, code: string, now: int)
    requires Consistent(s)
    requires VerifyAccount(s, valid, email, code, now).outcome == AccountVerified
    ensures email !in s.accounts
    ensures |VerifyAccount(s, valid, email, code, now).store.accounts| == |s.accounts| + 1
  {
  }

  /** `verify_account` does not lower-case its e-mail while `register` does: an address
      posted with a capital letter never verifies, whatever the code. */
  lemma MixedCaseEmailNeverVerifies(s: Store, valid: Validity, email: string, code: string, now: int)
    requires Consistent(s)
    requires !IsLower(email)
    ensures VerifyAccount(s, valid, email, code, now).outcome == InvalidOrExpiredCode
    ensures VerifyAccount(s, valid, email, code, now).store == s
  {
  }

  /** A verification code is single-use: once it has verified, the same e-mail and code fail
      at any later time and change nothing. */
  lemma VerifyIsSingleUse(s: Store, valid: Validity, email: string, code: string, now: int, later: int)
    requires VerifyAccount(s, valid, email, code, now).outcome == AccountVerified
    ensures var s' := VerifyAccount(s, valid, email, code, now).store;
      VerifyAccount(s', valid, email, code, later).outcome == InvalidOrExpiredCode
      && VerifyAccount(s', valid, email, code, later).store == s'
  {
  }

  /** Registering again before verifying replaces the code: after two successful
      registrations of the same address only the second code matches its pending row, and it
      carries the second password's hash. */
  lemma ReRegistrationVoidsEarlierCode(s: Store, email: string, password1: string, code1: string, now1: int,
                                       password2: string, code2: string, now2: int, code: string)
    requires |code1| == VerificationCodeLength && |code2| == VerificationCodeLength
    requires Register(s, email, password1, code1, now1).outcome == CodeSent
    ensures var s1 := Register(s, email, password1, code1, now1).store;
      var s2 := Register(s1, email, password2, code2, now2).store;
      && Register(s1, email, password2, code2, now2).outcome == CodeSent
      && (PendingMatches(s2, Lower(email), code) <==> code == code2)
      && s2.pending[Lower(email)].password == Hashed(password2)
  {
  }

  /** Registration then verification: with the lower-cased address and the mailed code, while
      the row is valid, the account is created holding the hash of the registered password and
      no pending row is left for it. */
  lemma RegisterThenVerify(s: Store, valid: Validity, email: string, password: string, code: string,
                           registeredAt: int, now: int)
    requires |code| == VerificationCodeLength
    requires Register(s, email, password, code, registeredAt).outcome == CodeSent
    requires valid(registeredAt, now)
    ensures var s1 := Register(s, email, password, code, registeredAt).store;
      var r := VerifyAccount(s1, valid, Lower(email), code, now);
      && r.outcome == AccountVerified
      && r.store.accounts[Lower(email)] == Hashed(password)
      && Lower(email) !in r.store.pending
  {
  }

  // ---------------------------------------------------------------- password reset

  /** Requesting a reset twice leaves one token for the account, and only the second value
      matches it. */
  lemma ReissuedResetVoidsEarlierToken(s: Store, email: string, token1: string, now1: int,
                                       token2: string, now2: int, token: string)
    requires |token1| == ResetTokenLength && |token2| == ResetTokenLength
    requires SendPasswordResetLink(s, email, token1, now1).outcome == ResetLinkSent
    ensures var s1 := SendPasswordResetLink(s, email, token1, now1).store;
      var s2 := SendPasswordResetLink(s1, email, token2, now2).store;
      && SendPasswordResetLink(s1, email, token2, now2).outcome == ResetLinkSent
      && (TokenMatches(s2, Lower(email), token) <==> token == token2)
      && s2.tokens.Keys == s1.tokens.Keys
  {
  }

  /** The link check and the password form agree: a link the check accepts, submitted with
      two equal non-empty passwords at the same time, changes the password. */
  lemma AcceptedLinkResets(s: Store, valid: Validity, email: string, token: string, password: string, now: int)
    requires email != "" && token != "" && password != ""
    requires ResetLinkAccepted(s, valid, Some(email), Some(token), now)
    ensures SetNewPassword(s, valid, Some(email), Some(token), Some(password), Some(password), now).outcome
            == PasswordChanged
  {
  }

  /** A mismatched pair of passwords does not consume the token: the same token with a
      matching pair still succeeds, and sets the hash of the password then given. */
  lemma MismatchKeepsToken(s: Store, valid: Validity, email: string, token: string,
                           password1: string, password2: string, password: string, now: int, later: int)
    requires email != "" && token != "" && password1 != "" && password2 != "" && password != ""
    requires password1 != password2
    requires TokenMatches(s, email, token) && valid(s.tokens[(email, PasswordResetToken)].createdAt, later)
    ensures var r := SetNewPassword(s, valid, Some(email), Some(token), Some(password1), Some(password2), now);
      && r.outcome == PasswordsDiffer
      && var r' := SetNewPassword(r.store, valid, Some(email), Some(token), Some(password), Some(password), later);
      && r'.outcome == PasswordChanged
      && r'.store.accounts[email] == Hashed(password)
  {
  }

  /** A reset token is single-use: after it has changed the password, the same link fails at
      any later time, both in the link check and in the password form. */
  lemma ResetIsSingleUse(s: Store, valid: Validity, email: Option<string>, token: Option<string>,
                         password1: Option<string>, password2: Option<string>, now: int,
                         password1': Option<string>, password2': Option<string>, later: int)
    requires SetNewPassword(s, valid, email, token, password1, password2, now).outcome == PasswordChanged
    ensures var s' := SetNewPassword(s, valid, email, token, password1, password2, now).store;
      && !ResetLinkAccepted(s', valid, email, token, later)
      && SetNewPassword(s', valid, email, token, password1', password2', later).outcome != PasswordChanged
  {
  }
}
