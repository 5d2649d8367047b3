/** The account views of `accounts/views.py` as methods on one object holding the three
    tables and the outgoing mail. Each method makes the view's changes in the view's order and
    is proved to produce exactly the step its specification function in accounts.dfy gives. */
module CredentialStores {
  import opened Optional
  import opened Text
  import opened Accounts
  import AccountsProperties

  class CredentialStore {
    var accounts: map<string, PasswordHash>
    var pending: map<string, PendingUser>
    var tokens: map<TokenKey, Token>
    /** Every message handed to `send_mail`, oldest first. */
    var outbox: seq<Mail>
    /** `PendingUser.is_valid()` and `Token.is_valid()`. */
    const pendingValid: Validity
    const tokenValid: Validity

    ghost function State(): Store
      reads this
    {
      Store(accounts, pending, tokens)
    }

    ghost predicate Valid()
      reads this
    {
      Consistent(State())
    }

    constructor (pendingValid: Validity, tokenValid: Validity)
      ensures Valid()
      ensures State() == Store(map[], map[], map[]) && outbox == []
      ensures this.pendingValid == pendingValid && this.tokenValid == tokenValid
    {
      accounts, pending, tokens, outbox := map[], map[], map[], [];
      this.pendingValid, this.tokenValid := pendingValid, tokenValid;
    }

    /** `register` (POST). `code` is the value `get_random_string(10)` produced. */
    method Register(email: string, password: string, code: string, now: int) returns (r: Outcome)
      requires Valid() && |code| == VerificationCodeLength
      modifies this
      ensures Valid()
      ensures var step := Accounts.Register(old(State()), email, password, code, now);
        State() == step.store && r == step.outcome && outbox == old(outbox) + step.sent
    {
      AccountsProperties.RegisterKeepsConsistent(State(), email, password, code, now);
      var e := Lower(email);
      if e in accounts {
        return EmailExists;
      }
      pending := pending[e := PendingUser(Hashed(password), code, now)];
      outbox := outbox + [VerificationMail(e, code)];
      r := CodeSent;
    }

    /** `verify_account` (POST). */
    method VerifyAccount(email: string, code: string, now: int) returns (r: Outcome)
      requires Valid()
      modifies this
      ensures Valid()
      ensures var step := Accounts.VerifyAccount(old(State()), pendingValid, email, code, now);
        State() == step.store && r == step.outcome && outbox == old(outbox)
    {
      AccountsProperties.VerifyAccountKeepsConsistent(State(), pendingValid, email, code, now);
      if email in pending && pending[email].code == code {
        var p := pending[email];
        if pendingValid(p.createdAt, now) {
          accounts := accounts[email := p.password];
          pending := pending - {email};
          return AccountVerified;
        }
      }
      r := InvalidOrExpiredCode;
    }

    /** `send_password_reset_link` (POST). `token` is the value `get_random_string(20)` produced. */
    method SendPasswordResetLink(email: string, token: string, now: int) returns (r: Outcome)
      requires Valid() && |token| == ResetTokenLength
      modifies this
      ensures Valid()
      ensures var step := Accounts.SendPasswordResetLink(old(State()), email, token, now);
        State() == step.store && r == step.outcome && outbox == old(outbox) + step.sent
    {
      AccountsProperties.SendPasswordResetLinkKeepsConsistent(State(), email, token, now);
      var e := Lower(email);
      if e !in accounts {
        return EmailNotFound;
      }
      tokens := tokens[(e, PasswordResetToken) := Token(token, now)];
      outbox := outbox + [ResetLinkMail(e, e, token)];
      r := ResetLinkSent;
    }

    /** `verify_password_reset_link`: reads the tables and changes nothing; true when the reset
        form is shown. */
    method VerifyPasswordResetLink(email: Option<string>, token: Option<string>, now: int) returns (ok: bool)
      ensures ok <==> ResetLinkAccepted(State(), tokenValid, email, token, now)
      ensures ok ==> email.Some? && token.Some? && (email.value, PasswordResetToken) in tokens
    {
      ok := false;
      if email.Some? && token.Some? {
        var key := (email.value, PasswordResetToken);
        if key in tokens && tokens[key].value == token.value {
          ok := tokenValid(tokens[key].createdAt, now);
        }
      }
    }

    /** `set_new_password` (POST). */
    method SetNewPassword(email: Option<string>, token: Option<string>,
                          password1: Option<string>, password2: Option<string>, now: int) returns (r: Outcome)
      requires Valid()
      modifies this
      ensures Valid()
      ensures var step := Accounts.SetNewPassword(old(State()), tokenValid, email, token, password1, password2, now);
        State() == step.store && r == step.outcome && outbox == old(outbox)
    {
      AccountsProperties.SetNewPasswordKeepsConsistent(State(), tokenValid, email, token, password1, password2, now);
      if !(Present(email) && Present(token)) {
        return MissingEmailOrToken;
      }
      if !Present(password1) || !Present(password2) {
        return PasswordsRequired;
      }
      if password1.value != password2.value {
        return PasswordsDiffer;
      }
      var key := (email.value, PasswordResetToken);
      if key !in tokens || tokens[key].value != token.value {
        return InvalidOrExpiredLink;
      }
      if !tokenValid(tokens[key].createdAt, now) {
        return LinkExpired;
      }
      accounts := accounts[email.value := Hashed(password1.value)];
      tokens := tokens - {key};
      r := PasswordChanged;
    }
  }

  /** The registration scenario on one store: two registrations of the same address, the first
      code refused, the second accepted, the account holding the second password's hash, and
      the second code refused when replayed. */
  method ReRegistrationScenario(store: CredentialStore, c1: string, c2: string, t1: int, t2: int, now: int)
    requires store.Valid() && store.State() == Store(map[], map[], map[])
    requires |c1| == VerificationCodeLength && |c2| == VerificationCodeLength && c1 != c2
    requires store.pendingValid(t2, now)
    modifies store
    ensures store.State().accounts == map["a@x.com" := Hashed("pw2")]
  {
    assert Lower("a@x.com") == "a@x.com" by { LowerFixesLowercase("a@x.com"); }
    var r := store.Register("a@x.com", "pw1", c1, t1);
    assert r == CodeSent;
    r := store.Register("a@x.com", "pw2", c2, t2);
    assert r == CodeSent;
    r := store.VerifyAccount("a@x.com", c1, now);
    assert r == InvalidOrExpiredCode;
    r := store.VerifyAccount("a@x.com", c2, now);
    assert r == AccountVerified;
    r := store.VerifyAccount("a@x.com", c2, now);
    assert r == InvalidOrExpiredCode;
  }
}
