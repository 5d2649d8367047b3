/** The `application_notifications` context processor of
    `application_tracking/context_processors.py`: the counts every page shows, derived from the
    application store. Also how the views change those counts. */
module Notifications {
  import opened Optional
  import opened Text
  import opened Tracking

  /** The dictionary the context processor adds to every template. */
  datatype Notifications = Notifications(
    newDecisionsCount: nat,
    unseenApplications: seq<Application>,
    pendingDecisionsCount: nat)

  /** An application of the user with this exact e-mail whose decision the user has not seen:
      not seen, and not in status APPLIED. */
  predicate IsUnseenDecision(a: Application, email: string) {
    a.email == email && !a.decisionSeen && a.status != Applied
  }

  /** The `unseen_applications` query. */
  function UnseenApplications(apps: seq<Application>, email: string): (r: seq<Application>)
    ensures forall a :: a in r <==> a in apps && IsUnseenDecision(a, email)
  {
    Filter(apps, (a: Application) => IsUnseenDecision(a, email))
  }

  /** An application waiting for a decision by `user`: still APPLIED, on an advert `user`
      created (the join `job_advert__created_by=user`). */
  predicate AwaitsDecisionBy(adverts: map<AdvertId, Advert>, a: Application, user: User) {
    a.advert in adverts && adverts[a.advert].createdBy == Some(user.id) && a.status == Applied
  }

  /** The `pending_applications` count. */
  function PendingDecisionsCount(adverts: map<AdvertId, Advert>, apps: seq<Application>, user: User): (n: nat)
    ensures n <= |apps|
    ensures n == |set i: nat | i < |apps| && AwaitsDecisionBy(adverts, apps[i], user)|
  {
    var awaits := (a: Application) => AwaitsDecisionBy(adverts, a, user);
    FilterCount(apps, awaits);
    assert KeptPositions(apps, awaits) == set i: nat | i < |apps| && AwaitsDecisionBy(adverts, apps[i], user);
    |Filter(apps, awaits)|
  }

  /** `application_notifications(request)`; `viewer` is the logged-in user, or None for an
      anonymous request. */
  function ApplicationNotifications(adverts: map<AdvertId, Advert>, apps: seq<Application>,
                                    viewer: Option<User>): (n: Notifications)
    ensures viewer.None? ==> n == Notifications(0, [], 0)
    ensures n.newDecisionsCount == |n.unseenApplications|
    ensures viewer.Some? ==>
      && (forall a :: a in n.unseenApplications <==> a in apps && IsUnseenDecision(a, viewer.value.email))
      && n.pendingDecisionsCount == PendingDecisionsCount(adverts, apps, viewer.value)
  {
    match viewer
    case None => Notifications(0, [], 0)
    case Some(user) =>
      var unseen := UnseenApplications(apps, user.email);
      Notifications(|unseen|, unseen, PendingDecisionsCount(adverts, apps, user))
  }

  // ---------------------------------------------------------------- properties of the counts

  /** The new-decisions count never exceeds the number of the user's own applications. */
  lemma NewDecisionsBoundedByOwnApplications(adverts: map<AdvertId, Advert>, apps: seq<Application>, user: User)
    ensures ApplicationNotifications(adverts, apps, Some(user)).newDecisionsCount
            <= |ApplicationsOf(apps, user.email)|
  {
    FilterMonotone(apps, (a: Application) => IsUnseenDecision(a, user.email),
                   (a: Application) => a.email == user.email);
  }

  /** After `my_applications` marks a user's decisions seen, that user has no unseen decision. */
  lemma {:induction false} MarkingClearsUnseen(apps: seq<Application>, email: string)
    ensures UnseenApplications(MarkDecisionsSeen(apps, email), email) == []
  {
    if apps != [] {
      MarkingClearsUnseen(apps[1..], email);
      assert MarkDecisionsSeen(apps, email)[1..] == MarkDecisionsSeen(apps[1..], email);
    }
  }

  /** ... and every other user's unseen decisions are exactly what they were. */
  lemma {:induction false} MarkingSparesOthers(apps: seq<Application>, email: string, other: string)
    requires other != email
    ensures UnseenApplications(MarkDecisionsSeen(apps, email), other) == UnseenApplications(apps, other)
  {
    if apps != [] {
      MarkingSparesOthers(apps[1..], email, other);
      assert MarkDecisionsSeen(apps, email)[1..] == MarkDecisionsSeen(apps[1..], email);
    }
  }

  /** Immediately after `my_applications`, the user's new-decisions count is 0 and the unseen
      list is empty; the pending-decisions count is untouched. */
  lemma NoNewDecisionsAfterMyApplications(adverts: map<AdvertId, Advert>, apps: seq<Application>, user: User)
    ensures var n := ApplicationNotifications(adverts, MarkDecisionsSeen(apps, user.email), Some(user));
      n.newDecisionsCount == 0 && n.unseenApplications == []
      && n.pendingDecisionsCount == PendingDecisionsCount(adverts, apps, user)
  {
    MarkingClearsUnseen(apps, user.email);
    MarkingKeepsPending(adverts, apps, user.email, user);
  }

  /** Marking decisions seen changes no status, so no pending count changes. */
  lemma {:induction false} MarkingKeepsPending(adverts: map<AdvertId, Advert>, apps: seq<Application>,
                                               email: string, user: User)
    ensures PendingDecisionsCount(adverts, MarkDecisionsSeen(apps, email), user)
            == PendingDecisionsCount(adverts, apps, user)
  {
    if apps != [] {
      MarkingKeepsPending(adverts, apps[1..], email, user);
      assert MarkDecisionsSeen(apps, email)[1..] == MarkDecisionsSeen(apps[1..], email);
    }
  }

  /** A new application (status APPLIED) adds one to the pending count of its advert's creator
      and to nobody else's. */
  lemma ApplyAddsPendingDecision(adverts: map<AdvertId, Advert>, apps: seq<Application>, a: Application, user: User)
    requires a.status == Applied && a.advert in adverts
    ensures PendingDecisionsCount(adverts, apps + [a], user)
            == PendingDecisionsCount(adverts, apps, user)
               + (if adverts[a.advert].createdBy == Some(user.id) then 1 else 0)
  {
    FilterAppend(apps, a, (b: Application) => AwaitsDecisionBy(adverts, b, user));
  }

  /** An application filed under an address that equals `email` only up to case (`Bob@x.com`
      for `bob@x.com`) blocks that user's application to the same advert, yet it is none of
      that user's applications: it never shows among the user's unseen decisions and
      `my_applications` leaves it as it is. */
  lemma CaseVariantBlocksButIsNotNotified(apps: seq<Application>, k: nat, email: string)
    requires k < |apps|
    requires EqualsIgnoringCase(apps[k].email, email) && apps[k].email != email
    ensures HasApplied(apps, apps[k].advert, email)
    ensures apps[k] !in ApplicationsOf(apps, email)
    ensures apps[k] !in UnseenApplications(apps, email)
    ensures MarkDecisionsSeen(apps, email)[k] == apps[k]
  {
  }

  /** A decision other than APPLIED shows up as an unseen decision of the applicant. */
  lemma DecisionIsNotified(apps: seq<Application>, k: nat, status: Status)
    requires k < |apps| && status != Applied
    ensures var apps' := apps[k := Decided(apps[k], status)];
      && apps'[k] in UnseenApplications(apps', apps[k].email)
      && |UnseenApplications(apps', apps[k].email)| >= 1
  {
  }
}
