# Job board: credential lifecycle and application tracking

This project models two small stateful parts of a job-board web application.

**Account credentials (`accounts/views.py`).** There are three tables:
- accounts: e-mail → password hash;
- pending registrations: e-mail → hash, verification code, creation time;
- password-reset tokens: (account, token type) → value, creation time.

The five views move rows between them:
- `register` lower-cases the address, refuses an existing account and upserts the pending row;
- `verify_account` promotes a matching, still-valid pending row to an account and deletes the pending row;
- `send_password_reset_link` upserts the account's reset token;
- `verify_password_reset_link` only reads;
- `set_new_password` runs five guards, then sets the new hash and deletes the token.

`Accounts` (accounts.dfy) gives each view as a function from the tables before to the tables after, its outcome and the mail it sends. `AccountsProperties` proves what holds across requests:
- the tables stay consistent;
- codes and tokens are single-use;
- re-issuing a code or token voids the earlier one;
- an address posted to `verify_account` with a capital letter never verifies, because only `register` lower-cases.

`CredentialStores.CredentialStore` keeps the tables in fields and updates them step by step in the views' order. Each method is proved to give exactly the function's result.

**Application tracking (`application_tracking/views.py`, `application_tracking/context_processors.py`).** The store has adverts, each with its creator, and applications, each with advert, name, e-mail, status and `decision_seen`. `JobBoards.JobBoard` models these views:
- `create_advert`, `update_advert` and `delete_advert`;
- `apply`, whose duplicate check compares e-mails case-insensitively;
- `decide`;
- `my_applications`;
- `advert_applications`.

The creator-only guards answer Forbidden and leave every table unchanged. `Notifications` models the context processor as pure functions over the same store. It also proves how the views move its counts. For example, right after `my_applications` the user's new-decisions count is 0.

The duplicate check matches e-mails case-insensitively (`iexact`). The seen and notification queries match the e-mail exactly. So an application filed under `Bob@x.com` is refused as a duplicate of `bob@x.com`, but it never appears among the decisions of the user whose address is `bob@x.com`. The model keeps both comparisons as written, and `Notifications.CaseVariantBlocksButIsNotNotified` proves this consequence.

Opaque inputs:
- `is_valid()` of pending users and tokens is a parameter of type `(created_at, now) -> bool`, since its rule is defined outside these files;
- the password hasher is the symbolic `Hashed(password)`;
- `get_random_string(10)` and `get_random_string(20)` are values the caller supplies, of those lengths;
- the current time is a parameter.

## Model

| member | source | states |
|---|---|---|
| Text.Lower | accounts/views.py:52 | `.lower()` keeps the length, lower-cases every character in place and leaves no capital letter |
| Text.LowerFixesLowercase | accounts/views.py:116 | an address that is already lower-case is unchanged by `.lower()` |
| Accounts.Register | accounts/views.py:50-80 | refused (tables unchanged, no mail) iff the lower-cased address has an account; otherwise exactly one pending row for it, holding Hash(password), the new code and `now`, replacing any earlier one; other rows and the account and token tables are unchanged; the code is mailed to the lower-cased address |
| Accounts.VerifyAccount | accounts/views.py:86-108 | succeeds iff a pending row matches the posted e-mail and code exactly and is valid now; on success the account gets the stored hash verbatim and the pending row is deleted; on failure nothing changes |
| Accounts.SendPasswordResetLink | accounts/views.py:114-143 | an unknown lower-cased address changes nothing; otherwise the account's one reset token gets the fresh value and `now`, every other token is unchanged, and the link with address and token is mailed |
| Accounts.ResetLinkAccepted | accounts/views.py:149-167 | accepted iff both parameters are given and a valid reset token of that account has that value |
| Accounts.SetNewPassword | accounts/views.py:170-229 | the five guards in source order, each outcome given exactly by its condition; every refusal changes nothing and keeps the token; success sets Hash(password1) on the owner and deletes exactly that token |
| AccountsProperties.RegisterKeepsConsistent | accounts/views.py:50-69 | registration keeps all stored addresses lower-case, pending disjoint from accounts, tokens owned by accounts |
| AccountsProperties.VerifyAccountKeepsConsistent | accounts/views.py:91-101 | verification keeps the tables consistent |
| AccountsProperties.SendPasswordResetLinkKeepsConsistent | accounts/views.py:116-131 | issuing a reset token keeps the tables consistent |
| AccountsProperties.SetNewPasswordKeepsConsistent | accounts/views.py:183-226 | resetting a password keeps the tables consistent |
| AccountsProperties.VerifiedAccountIsNew | accounts/views.py:97-99 | in a consistent store the account created by verification did not exist, so the account count grows by one |
| AccountsProperties.MixedCaseEmailNeverVerifies | accounts/views.py:89-93 | an address with a capital letter never verifies and changes nothing, whatever the code |
| AccountsProperties.VerifyIsSingleUse | accounts/views.py:101 | after a successful verification, the same e-mail and code fail at any later time and change nothing |
| AccountsProperties.ReRegistrationVoidsEarlierCode | accounts/views.py:62-69 | after two registrations of one address only the second code matches, and the row holds the second password's hash |
| AccountsProperties.RegisterThenVerify | accounts/views.py:52-101 | registering and then verifying with the lower-cased address and the mailed code, in time, creates the account with Hash(password) and leaves no pending row |
| AccountsProperties.ReissuedResetVoidsEarlierToken | accounts/views.py:124-131 | two reset requests leave one token for the account, and only the second value matches it |
| AccountsProperties.AcceptedLinkResets | accounts/views.py:153-226 | a link the check accepts, posted with two equal non-empty passwords at the same time, changes the password |
| AccountsProperties.MismatchKeepsToken | accounts/views.py:196-226 | differing passwords consume nothing: the same token with a matching pair still succeeds and sets that hash |
| AccountsProperties.ResetIsSingleUse | accounts/views.py:226 | after a successful reset the same link fails both the link check and the password form at any later time |
| CredentialStores.CredentialStore.Register | accounts/views.py:50-80 | the fields after the method equal the tables `Accounts.Register` gives, the outcome matches it, its mail is appended, and consistency is kept |
| CredentialStores.CredentialStore.VerifyAccount | accounts/views.py:86-108 | the fields after the method and the outcome are those of `Accounts.VerifyAccount`, and consistency is kept |
| CredentialStores.CredentialStore.SendPasswordResetLink | accounts/views.py:114-143 | the fields after the method, the outcome and the mail are those of `Accounts.SendPasswordResetLink` |
| CredentialStores.CredentialStore.VerifyPasswordResetLink | accounts/views.py:149-167 | changes nothing; true iff `Accounts.ResetLinkAccepted` holds of the current tables |
| CredentialStores.CredentialStore.SetNewPassword | accounts/views.py:170-229 | the fields after the method and the outcome are those of `Accounts.SetNewPassword`, and consistency is kept |
| CredentialStores.ReRegistrationScenario | accounts/views.py:50-104 | on one store: register twice with codes C1 and C2; C1 fails; C2 succeeds, creating the account with the second password's hash; replaying C2 fails |
| Tracking.ApplicationsOf | application_tracking/views.py:143 | exactly the rows whose e-mail equals the given one exactly |
| Tracking.FilterKeepsMultiplicity | application_tracking/views.py:143 | a `filter(...)` query keeps every matching row as often as it occurs in the table and no other row, so the query lists hold exactly the matching rows, not only the same set of rows |
| Tracking.FilterCount | application_tracking/context_processors.py:30-34 | the `.count()` of a `filter(...)` query is the number of table positions whose row matches |
| Tracking.ApplicationsFor | application_tracking/views.py:187 | exactly the rows of the given advert |
| Tracking.WithoutAdvert | application_tracking/views.py:106 | exactly the rows not on the deleted advert |
| Tracking.IndexOf | application_tracking/views.py:201 | the position of the row with that key, or None exactly when no row has it |
| Tracking.Decided | application_tracking/views.py:207-212 | status becomes the posted one; `decision_seen` becomes false unless the status is APPLIED, when it keeps its value; no other field changes |
| Tracking.MarkDecisionsSeen | application_tracking/views.py:146-151 | `decision_seen` is set on exactly the rows with this exact e-mail and a status other than APPLIED; every other row is unchanged |
| Tracking.MarkingKeepsRows | application_tracking/views.py:146-151 | the bulk update changes only `decision_seen`, so it keeps unique keys and one application per applicant |
| Tracking.DecidingKeepsRows | application_tracking/views.py:205-210 | deciding one application keeps every row's key, advert and e-mail, so distinct keys and one application per applicant carry over |
| Notifications.UnseenApplications | application_tracking/context_processors.py:18-23 | exactly the applications with the user's exact e-mail, not seen and not APPLIED |
| Notifications.PendingDecisionsCount | application_tracking/context_processors.py:30-35 | the count is exactly the number of positions holding an APPLIED application on an advert the user created, so at most the number of applications |
| Notifications.ApplicationNotifications | application_tracking/context_processors.py:5-37 | anonymous: both counts 0 and the list empty; logged in: the list is exactly the user's unseen decisions, the new-decisions count is its length, and the pending count is `PendingDecisionsCount` |
| Notifications.NewDecisionsBoundedByOwnApplications | application_tracking/context_processors.py:25-26 | the new-decisions count is at most the number of the user's applications |
| Notifications.MarkingClearsUnseen | application_tracking/views.py:146-151 | after the bulk update the user's unseen-decisions list is empty (induction) |
| Notifications.MarkingSparesOthers | application_tracking/views.py:146-151 | after the bulk update every other address's unseen-decisions list is exactly what it was |
| Notifications.MarkingKeepsPending | application_tracking/views.py:146-151 | the bulk update changes no pending-decisions count |
| Notifications.NoNewDecisionsAfterMyApplications | application_tracking/context_processors.py:18-35 | right after `my_applications` the user's new-decisions count is 0, the list is empty and the pending count is unchanged |
| Notifications.ApplyAddsPendingDecision | application_tracking/views.py:123-126 | a new APPLIED application adds one to the pending count of its advert's creator and nothing to anyone else's |
| Notifications.DecisionIsNotified | application_tracking/views.py:207-212 | a decision other than APPLIED appears among the applicant's unseen decisions |
| Notifications.CaseVariantBlocksButIsNotNotified | application_tracking/views.py:119 | an application whose e-mail equals the user's only up to case counts as the user's duplicate for the advert, but it is not among the user's applications, not among the user's unseen decisions, and `my_applications` leaves it unchanged |
| JobBoards.JobBoard.CreateAdvert | application_tracking/views.py:39-57 | an invalid form changes nothing; a valid one adds one advert under a fresh key, with the requester as creator, and nothing else |
| JobBoards.JobBoard.UpdateAdvert | application_tracking/views.py:81-97 | a missing advert is NotFound and a non-creator Forbidden, both with nothing changed; the creator's valid form replaces the advert's fields and keeps the creator |
| JobBoards.JobBoard.DeleteAdvert | application_tracking/views.py:101-108 | NotFound or Forbidden with nothing changed; the creator removes exactly that advert and its applications |
| JobBoards.JobBoard.Apply | application_tracking/views.py:112-137 | refused with nothing changed when the advert already has an application with the e-mail up to case; otherwise exactly one APPLIED application is appended, the invariant "one application per advert and case-folded e-mail" is kept, and the creator's pending count grows by one |
| JobBoards.JobBoard.MyApplications | application_tracking/views.py:141-162 | the bulk update of `decision_seen`, nothing else changed; returns the user's applications as updated, and the user's new-decisions count is then 0 |
| JobBoards.JobBoard.AdvertApplications | application_tracking/views.py:182-197 | changes nothing; NotFound, Forbidden for anyone but the creator, otherwise the list is `ApplicationsFor` of the table: every application of the advert, as often as it occurs in the table, and no other row |
| JobBoards.JobBoard.Decide | application_tracking/views.py:200-229 | NotFound or Forbidden with nothing changed; for the creator only that application is changed, as `Tracking.Decided` says; the applicant is mailed iff the status is REJECTED, and a non-APPLIED decision shows among the applicant's unseen decisions |

## Left out

- `login`, `logout`, `home` and the `auth.login` after verification are session and authentication plumbing of the web framework (accounts/views.py:16-45, 102).
- Template rendering, flash messages, redirects and HTTP status codes become the outcome values `Accounts.Outcome` and `JobBoards.Response`.
- The GET branches that only render a form are left out, and so is `decide` on GET, which returns no response at all.
- Tracking.Decided: the posted status is taken as present. A `decide` request with no `status` field would store None, which the model does not represent.
- `send_mail` becomes an appended outbox, with the message content reduced to its data (code, link parameters, job title). Delivery and its failures are not modelled.
- `send_verification_email` is not modelled because no view calls it.
- Password hashing is symbolic (`Hashed(password)`). The hasher's algorithm and random salt are not modelled, so two hashes of one password compare equal here, which they do not in the database.
- The random code and token are supplied by the caller, with lengths 10 and 20. The alphabet and the chance of collisions are not modelled.
- The expiry rule of `is_valid()` is defined outside these files, so it is a parameter. No duration is assumed.
- Text.Lower, Text.EqualsIgnoringCase, Tracking.HasApplied: only ASCII `A`-`Z` are folded. Python's `str.lower()` also lower-cases other scripts, and the database evaluates `iexact` itself (`UPPER(x) = UPPER(y)` on PostgreSQL, `LIKE` on SQLite), so for non-ASCII addresses the model is weaker than the source.
- Statuses: `ApplicationStatus` is taken to be a string enumeration. `Other` stands for a posted value outside the enumeration and never carries the names `APPLIED`, `INTERVIEW` or `REJECTED`; a posted string spelling one of those is modelled as that member.
- A missing `email`, `code` or `password` field in `register` and `verify_account` raises an error in the framework. The model takes these fields as present strings.
- The user model's e-mail is taken to be unique. The model keys the account table by it. The integrity error a duplicate account would raise is not modelled: in a consistent store it cannot happen (`AccountsProperties.VerifiedAccountIsNew`).
- The application models are defined outside these files:
  - the application's foreign key to its advert is taken to cascade on delete;
  - a new application starts as APPLIED with its decision not seen;
  - the status values other than APPLIED, INTERVIEW and REJECTED are `Other(name)`;
  - of the advert form, only title and company name are modelled;
  - of the application form, only name and e-mail are modelled (the uploaded file is left out).
- `login_required` is modelled by taking the user as a parameter. The redirect of anonymous visitors is left out.
- The read-only views `home` (its rounded float success rate), `list_adverts`, `get_advert`, `my_jobs` and `search` are left out. Their queries are library code or defined outside these files.
- Pagination is left out. `my_applications` and `advert_applications` return the whole list that would be paginated.
- `accounts/decorators.py`, the URL tables and the three management commands are request plumbing, routing, or CLI wrappers around one ORM filter or delete.
- Concurrent requests are left out. Each view runs to completion on the current tables.
