/** The state-changing views of `application_tracking/views.py` as methods on one object
    holding the advert table, the application table, the next primary keys and the outgoing
    mail. Each method states its whole effect, including the unchanged tables on every
    refusal, and keeps the store's invariant. */
module JobBoards {
  import opened Optional
  import opened Text
  import opened Tracking
  import opened Notifications

  /** What a view answers. */
  datatype Response =
    | NotFound                          // get_object_or_404 found no row
    | Forbidden                         // HttpResponseForbidden: not the advert's creator
    | FormInvalid                       // the form is shown again
    | AlreadyApplied                    // "You have already applied for this position"
    | Created(advert: AdvertId)         // create_advert: redirect to the new advert
    | Saved                             // the change was saved
    | Listed(items: seq<Application>)   // advert_applications: the list shown

  /** The rejection mail `decide` sends to the applicant. */
  datatype OutcomeMail = OutcomeMail(to: string, applicantName: string, jobTitle: string, companyName: string)

  /** `user` created the advert `id`: the guard `request.user == advert.created_by`. */
  predicate Owns(adverts: map<AdvertId, Advert>, id: AdvertId, user: User) {
    id in adverts && adverts[id].createdBy == Some(user.id)
  }

  class JobBoard {
    var adverts: map<AdvertId, Advert>
    var applications: seq<Application>
    /** The primary keys the database will give the next advert and the next application. */
    var nextAdvertId: AdvertId
    var nextApplicationId: ApplicationId
    var outbox: seq<OutcomeMail>

    /** Keys below the next key, application keys unique, every application on an existing
        advert, and at most one application per advert and case-insensitive e-mail. */
    ghost predicate Valid()
      reads this
    {
      && (forall id :: id in adverts ==> id < nextAdvertId)
      && (forall i :: 0 <= i < |applications| ==>
            applications[i].id < nextApplicationId && applications[i].advert in adverts)
      && DistinctIds(applications)
      && OneApplicationPerApplicant(applications)
    }

    constructor ()
      ensures Valid()
      ensures adverts == map[] && applications == [] && outbox == []
    {
      adverts, applications, outbox := map[], [], [];
      nextAdvertId, nextApplicationId := 1, 1;
    }

    /** `create_advert`: a valid form becomes a new advert whose creator is the requesting user. */
    method CreateAdvert(user: User, form: Option<AdvertDetails>) returns (r: Response)
      requires Valid()
      modifies this
      ensures Valid()
      ensures form.None? ==> r == FormInvalid && unchanged(this)
      ensures form.Some? ==>
        && r == Created(old(nextAdvertId))
        && old(nextAdvertId) !in old(adverts)
        && adverts == old(adverts)[old(nextAdvertId) := Advert(form.value, Some(user.id))]
        && Owns(adverts, r.advert, user)
        && applications == old(applications) && outbox == old(outbox)
        && nextAdvertId == old(nextAdvertId) + 1 && nextApplicationId == old(nextApplicationId)
    {
      if form.None? {
        return FormInvalid;
      }
      var id := nextAdvertId;
      adverts := adverts[id := Advert(form.value, Some(user.id))];
      nextAdvertId := nextAdvertId + 1;
      r := Created(id);
    }

    /** `update_advert`: only the creator may save new form fields; the creator stays. */
    method UpdateAdvert(user: User, id: AdvertId, form: Option<AdvertDetails>) returns (r: Response)
      requires Valid()
      modifies this
      ensures Valid()
      ensures id !in old(adverts) ==> r == NotFound && unchanged(this)
      ensures id in old(adverts) && !Owns(old(adverts), id, user) ==> r == Forbidden && unchanged(this)
      ensures Owns(old(adverts), id, user) && form.None? ==> r == FormInvalid && unchanged(this)
      ensures Owns(old(adverts), id, user) && form.Some? ==>
        && r == Saved
        && adverts == old(adverts)[id := Advert(form.value, Some(user.id))]
        && applications == old(applications) && outbox == old(outbox)
        && nextAdvertId == old(nextAdvertId) && nextApplicationId == old(nextApplicationId)
    {
      if id !in adverts {
        return NotFound;
      }
      if !Owns(adverts, id, user) {
        return Forbidden;
      }
      if form.None? {
        return FormInvalid;
      }
      adverts := adverts[id := adverts[id].(details := form.value)];
      r := Saved;
    }

    /** `delete_advert`: only the creator may delete; exactly that advert goes, and with it its
        applications (the foreign key cascades). */
    method DeleteAdvert(user: User, id: AdvertId) returns (r: Response)
      requires Valid()
      modifies this
      ensures Valid()
      ensures id !in old(adverts) ==> r == NotFound && unchanged(this)
      ensures id in old(adverts) && !Owns(old(adverts), id, user) ==> r == Forbidden && unchanged(this)
      ensures Owns(old(adverts), id, user) ==>
        && r == Saved
        && adverts == old(adverts) - {id}
        && applications == WithoutAdvert(old(applications), id)
        && outbox == old(outbox)
        && nextAdvertId == old(nextAdvertId) && nextApplicationId == old(nextApplicationId)
    {
      if id !in adverts {
        return NotFound;
      }
      if !Owns(adverts, id, user) {
        return Forbidden;
      }
      FilterKeepsPairwise(applications, (a: Application) => a.advert != id,
                          (a: Application, b: Application) => a.id != b.id);
      FilterKeepsPairwise(applications, (a: Application) => a.advert != id,
                          (a: Application, b: Application) =>
                            !(a.advert == b.advert && EqualsIgnoringCase(a.email, b.email)));
      adverts := adverts - {id};
      applications := WithoutAdvert(applications, id);
      r := Saved;
      assert forall i :: 0 <= i < |applications| ==> applications[i] in old(applications);
    }

    /** `apply` (POST): anyone may apply, but not twice to one advert with e-mails equal up to
        case; a new application starts in status APPLIED with its decision not seen. */
    method Apply(id: AdvertId, form: Option<ApplicationForm>) returns (r: Response)
      requires Valid()
      modifies this
      ensures Valid()
      ensures id !in old(adverts) ==> r == NotFound && unchanged(this)
      ensures id in old(adverts) && form.None? ==> r == FormInvalid && unchanged(this)
      ensures id in old(adverts) && form.Some? && HasApplied(old(applications), id, form.value.email) ==>
        r == AlreadyApplied && unchanged(this)
      ensures id in old(adverts) && form.Some? && !HasApplied(old(applications), id, form.value.email) ==>
        && r == Saved
        && applications == old(applications)
             + [Application(old(nextApplicationId), id, form.value.name, form.value.email, Applied, false)]
        && adverts == old(adverts) && outbox == old(outbox) && nextAdvertId == old(nextAdvertId)
        && (forall u: User :: PendingDecisionsCount(adverts, applications, u)
              == PendingDecisionsCount(adverts, old(applications), u) + (if Owns(adverts, id, u) then 1 else 0))
    {
      if id !in adverts {
        return NotFound;
      }
      if form.None? {
        return FormInvalid;
      }
      var email := form.value.email;
      if exists i :: 0 <= i < |applications| && applications[i].advert == id
                     && EqualsIgnoringCase(applications[i].email, email) {
        return AlreadyApplied;
      }
      var a := Application(nextApplicationId, id, form.value.name, email, Applied, false);
      forall u: User
        ensures PendingDecisionsCount(adverts, applications + [a], u)
                == PendingDecisionsCount(adverts, applications, u) + (if Owns(adverts, id, u) then 1 else 0)
      {
        ApplyAddsPendingDecision(adverts, applications, a, u);
      }
      applications := applications + [a];
      nextApplicationId := nextApplicationId + 1;
      r := Saved;
    }

    /** `my_applications`: marks every decision on the user's applications (exact e-mail,
        status not APPLIED) seen, and returns the user's applications as they are afterwards. */
    method MyApplications(user: User) returns (mine: seq<Application>)
      requires Valid()
      modifies this
      ensures Valid()
      ensures applications == MarkDecisionsSeen(old(applications), user.email)
      ensures adverts == old(adverts) && outbox == old(outbox)
      ensures nextAdvertId == old(nextAdvertId) && nextApplicationId == old(nextApplicationId)
      ensures mine == ApplicationsOf(applications, user.email)
      ensures ApplicationNotifications(adverts, applications, Some(user)).newDecisionsCount == 0
    {
      NoNewDecisionsAfterMyApplications(adverts, applications, user);
      MarkingKeepsRows(applications, user.email);
      applications := MarkDecisionsSeen(applications, user.email);
      mine := ApplicationsOf(applications, user.email);
    }

    /** `advert_applications`: reads only; the creator sees the advert's applications. */
    method AdvertApplications(user: User, id: AdvertId) returns (r: Response)
      ensures id !in adverts ==> r == NotFound
      ensures id in adverts && !Owns(adverts, id, user) ==> r == Forbidden
      ensures Owns(adverts, id, user) ==>
        && r == Listed(ApplicationsFor(applications, id))
        && (forall a :: a in r.items <==> a in applications && a.advert == id)
        && (forall a :: multiset(r.items)[a] == if a.advert == id then multiset(applications)[a] else 0)
    {
      if id !in adverts {
        return NotFound;
      }
      if !Owns(adverts, id, user) {
        return Forbidden;
      }
      FilterKeepsMultiplicity(applications, (a: Application) => a.advert == id);
      r := Listed(ApplicationsFor(applications, id));
    }

    /** `decide` (POST): only the creator of the application's advert may set its status;
        a status other than APPLIED marks the decision unseen, and REJECTED mails the applicant. */
    method Decide(user: User, applicationId: ApplicationId, status: Status) returns (r: Response)
      requires Valid()
      modifies this
      ensures Valid()
      ensures IndexOf(old(applications), applicationId).None? ==> r == NotFound && unchanged(this)
      ensures IndexOf(old(applications), applicationId).Some? ==>
        var k := IndexOf(old(applications), applicationId).value;
        var a := old(applications)[k];
        && (!Owns(old(adverts), a.advert, user) ==> r == Forbidden && unchanged(this))
        && (Owns(old(adverts), a.advert, user) ==>
              && r == Saved
              && applications == old(applications)[k := Decided(a, status)]
              && adverts == old(adverts)
              && nextAdvertId == old(nextAdvertId) && nextApplicationId == old(nextApplicationId)
              && outbox == old(outbox) + (if status == Rejected then
                   [OutcomeMail(a.email, a.name, adverts[a.advert].details.title, adverts[a.advert].details.companyName)]
                 else [])
              && (status != Applied ==> applications[k] in UnseenApplications(applications, a.email)))
    {
      var found := IndexOf(applications, applicationId);
      if found.None? {
        return NotFound;
      }
      var k := found.value;
      var a := applications[k];
      if !Owns(adverts, a.advert, user) {
        return Forbidden;
      }
      DecidingKeepsRows(applications, k, status);
      if status != Applied {
        DecisionIsNotified(applications, k, status);
      }
      applications := applications[k := Decided(a, status)];
      if status == Rejected {
        var advert := adverts[a.advert];
        outbox := outbox + [OutcomeMail(a.email, a.name, advert.details.title, advert.details.companyName)];
      }
      r := Saved;
    }
  }
}
