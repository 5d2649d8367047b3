/** The rows of the application-tracking store and the queries and bulk updates the views of
    `application_tracking/views.py` run over them. Applications are kept as a sequence in
    table order, so the lists a query returns keep that order. */
module Tracking {
  import opened Optional
  import opened Text

  type UserId = nat
  type AdvertId = nat
  type ApplicationId = nat

  /** A logged-in user, compared with `created_by` by primary key; notifications use its e-mail. */
  datatype User = User(id: UserId, email: string)

  /** `ApplicationStatus`. The views test only for APPLIED and REJECTED; INTERVIEW is used
      elsewhere and `Other` stands for every further value that may be posted. */
  datatype Status = Applied | Interview | Rejected | Other(name: string)

  /** The fields of the advert form that the views read (title and company for the rejection
      mail); the other form fields are carried along unchanged and not modelled. */
  datatype AdvertDetails = AdvertDetails(title: string, companyName: string)

  /** A `JobAdvert` row: its form fields and its creator (absent for an advert nobody owns). */
  datatype Advert = Advert(details: AdvertDetails, createdBy: Option<UserId>)

  /** The fields of a valid application form. */
  datatype ApplicationForm = ApplicationForm(name: string, email: string)

  /** A `JobApplication` row. */
  datatype Application = Application(
    id: ApplicationId, advert: AdvertId, name: string, email: string,
    status: Status, decisionSeen: bool)

  /** The elements of `s` that `keep` accepts, in their order: a `filter(...)` over the table. */
  function Filter(s: seq<Application>, keep: Application -> bool): (r: seq<Application>)
    ensures |r| <= |s|
    ensures forall a :: a in r <==> a in s && keep(a)
  {
    if s == [] then []
    else if keep(s[0]) then [s[0]] + Filter(s[1..], keep)
    else Filter(s[1..], keep)
  }

  /** A filter keeps every accepted row as often as it occurs, and no other row. */
  lemma {:induction false} FilterKeepsMultiplicity(s: seq<Application>, keep: Application -> bool)
    ensures forall a :: multiset(Filter(s, keep))[a] == if keep(a) then multiset(s)[a] else 0
  {
    if s != [] {
      FilterKeepsMultiplicity(s[1..], keep);
      assert s == [s[0]] + s[1..];
    }
  }

  /** The positions of `s` whose row `keep` accepts. */
  function KeptPositions(s: seq<Application>, keep: Application -> bool): set<nat> {
    set i: nat | i < |s| && keep(s[i])
  }

  /** Every position one further on. */
  function Shift(xs: set<nat>): set<nat> {
    set x | x in xs :: x + 1
  }

  /** Shifting a set of positions by one keeps its size. */
  lemma {:induction false} ShiftKeepsSize(xs: set<nat>)
    ensures |Shift(xs)| == |xs|
  {
    if xs != {} {
      var y :| y in xs;
      var rest := xs - {y};
      ShiftKeepsSize(rest);
      forall z ensures z in Shift(xs) <==> z in Shift(rest) + {y + 1} {
        if z in Shift(xs) && z != y + 1 {
          assert z - 1 in rest;
        }
      }
      assert Shift(xs) == Shift(rest) + {y + 1};
      assert xs == rest + {y};
    }
  }

  /** The kept positions of a non-empty sequence: those of its tail, one further on, and the
      first position if its row is kept. */
  lemma KeptPositionsOfTail(s: seq<Application>, keep: Application -> bool)
    requires s != []
    ensures KeptPositions(s, keep)
            == Shift(KeptPositions(s[1..], keep)) + (if keep(s[0]) then {0} else {})
  {
    var tail := KeptPositions(s[1..], keep);
    var shifted := Shift(tail);
    forall i: nat ensures i in KeptPositions(s, keep) <==> i in shifted + (if keep(s[0]) then {0} else {}) {
      if 1 <= i < |s| && keep(s[i]) {
        assert s[1..][i - 1] == s[i];
        assert i - 1 in tail;
      }
    }
  }

  /** A filter keeps one row for every position whose row it accepts: its length is the
      number of such positions. */
  lemma {:induction false} FilterCount(s: seq<Application>, keep: Application -> bool)
    ensures |Filter(s, keep)| == |KeptPositions(s, keep)|
  {
    if s != [] {
      FilterCount(s[1..], keep);
      KeptPositionsOfTail(s, keep);
      var tail := KeptPositions(s[1..], keep);
      ShiftKeepsSize(tail);
      assert 0 !in Shift(tail);
    }
  }

  /** Filtering distributes over appending one row at the end. */
  lemma {:induction false} FilterAppend(s: seq<Application>, a: Application, keep: Application -> bool)
    ensures Filter(s + [a], keep) == Filter(s, keep) + (if keep(a) then [a] else [])
  {
    if s != [] {
      assert (s + [a])[1..] == s[1..] + [a];
      FilterAppend(s[1..], a, keep);
    }
  }

  /** A filter by a weaker condition keeps at least as many rows. */
  lemma {:induction false} FilterMonotone(s: seq<Application>, keep: Application -> bool, wider: Application -> bool)
    requires forall a :: keep(a) ==> wider(a)
    ensures |Filter(s, keep)| <= |Filter(s, wider)|
  {
    if s != [] {
      FilterMonotone(s[1..], keep, wider);
    }
  }

  /** `rel` holds between every row and every later row. */
  predicate Pairwise(s: seq<Application>, rel: (Application, Application) -> bool) {
    forall i, j :: 0 <= i < j < |s| ==> rel(s[i], s[j])
  }

  /** A relation that holds between every earlier and every later row still holds after
      filtering: filtering keeps rows in order. */
  lemma {:induction false} FilterKeepsPairwise(s: seq<Application>, keep: Application -> bool,
                                               rel: (Application, Application) -> bool)
    requires Pairwise(s, rel)
    ensures Pairwise(Filter(s, keep), rel)
  {
    if s != [] {
      FilterKeepsPairwise(s[1..], keep, rel);
      var t := Filter(s[1..], keep);
      if keep(s[0]) {
        var r := [s[0]] + t;
        assert Filter(s, keep) == r;
        forall i, j | 0 <= i < j < |r|
          ensures rel(r[i], r[j])
        {
          assert r[j] == t[j - 1];
          if i == 0 {
            assert t[j - 1] in s[1..];
            var k :| 0 <= k < |s[1..]| && s[1..][k] == t[j - 1];
            assert r[0] == s[0] && s[k + 1] == t[j - 1];
            assert rel(s[0], s[k + 1]);
          } else {
            assert r[i] == t[i - 1];
            assert 0 <= i - 1 < j - 1 < |t|;
          }
        }
      } else {
        assert Filter(s, keep) == t;
      }
    }
  }

  // ---------------------------------------------------------------- what the views look up

  /** `advert.applications.filter(email__iexact=email).exists()`. */
  predicate HasApplied(apps: seq<Application>, advert: AdvertId, email: string) {
    exists i :: 0 <= i < |apps| && apps[i].advert == advert && EqualsIgnoringCase(apps[i].email, email)
  }

  /** No advert has two applications whose e-mails differ only in case: what the duplicate
      check of `apply` maintains. */
  predicate OneApplicationPerApplicant(apps: seq<Application>) {
    forall i, j :: 0 <= i < j < |apps| ==>
      !(apps[i].advert == apps[j].advert && EqualsIgnoringCase(apps[i].email, apps[j].email))
  }

  /** No two rows share a primary key. */
  predicate DistinctIds(apps: seq<Application>) {
    forall i, j :: 0 <= i < j < |apps| ==> apps[i].id != apps[j].id
  }

  /** `JobApplication.objects.filter(email=email)`: exact e-mail equality. */
  function ApplicationsOf(apps: seq<Application>, email: string): (r: seq<Application>)
    ensures forall a :: a in r <==> a in apps && a.email == email
  {
    Filter(apps, (a: Application) => a.email == email)
  }

  /** `advert.applications.all()`. */
  function ApplicationsFor(apps: seq<Application>, advert: AdvertId): (r: seq<Application>)
    ensures forall a :: a in r <==> a in apps && a.advert == advert
  {
    Filter(apps, (a: Application) => a.advert == advert)
  }

  /** The rows that remain when an advert is deleted and its applications go with it. */
  function WithoutAdvert(apps: seq<Application>, advert: AdvertId): (r: seq<Application>)
    ensures forall a :: a in r <==> a in apps && a.advert != advert
  {
    Filter(apps, (a: Application) => a.advert != advert)
  }

  /** `get_object_or_404(JobApplication, pk=id)`: the position of the row with that key. */
  function IndexOf(apps: seq<Application>, id: ApplicationId): (r: Option<nat>)
    ensures r.Some? ==> r.value < |apps| && apps[r.value].id == id
    ensures r.None? ==> forall i :: 0 <= i < |apps| ==> apps[i].id != id
  {
    if apps == [] then None
    else if apps[0].id == id then Some(0)
    else match IndexOf(apps[1..], id)
      case None => None
      case Some(k) => Some(k + 1)
  }

  /** An application after `decide` posts `status`: the status is replaced, and unless the new
      status is APPLIED the decision is marked unseen; nothing else changes. */
  function Decided(a: Application, status: Status): (r: Application)
    ensures r.status == status
    ensures r.decisionSeen == (if status == Applied then a.decisionSeen else false)
    ensures r.(status := a.status, decisionSeen := a.decisionSeen) == a
  {
    if status != Applied then a.(status := status, decisionSeen := false) else a.(status := status)
  }

  /** Deciding one application changes only its status and `decision_seen`, so key uniqueness
      and one application per applicant still hold. */
  lemma DecidingKeepsRows(apps: seq<Application>, k: nat, status: Status)
    requires k < |apps|
    ensures var r := apps[k := Decided(apps[k], status)];
      forall i :: 0 <= i < |apps| ==>
        r[i].id == apps[i].id && r[i].advert == apps[i].advert && r[i].email == apps[i].email
    ensures DistinctIds(apps) ==> DistinctIds(apps[k := Decided(apps[k], status)])
    ensures OneApplicationPerApplicant(apps) ==> OneApplicationPerApplicant(apps[k := Decided(apps[k], status)])
  {
  }

  /** Whether `my_applications` marks `a` as seen for the user with that e-mail. */
  predicate MarkedBy(a: Application, email: string) {
    a.email == email && a.status != Applied
  }

  /** The bulk update of `my_applications`: every application with exactly this e-mail and a
      status other than APPLIED gets `decision_seen = True`; every other row is unchanged. */
  function MarkDecisionsSeen(apps: seq<Application>, email: string): (r: seq<Application>)
    ensures |r| == |apps|
    ensures forall i :: 0 <= i < |apps| ==>
      r[i] == if MarkedBy(apps[i], email) then apps[i].(decisionSeen := true) else apps[i]
  {
    if apps == [] then []
    else
      var a := apps[0];
      [if MarkedBy(a, email) then a.(decisionSeen := true) else a] + MarkDecisionsSeen(apps[1..], email)
  }

  /** The bulk update touches only `decision_seen`: keys, adverts, e-mails and statuses stay,
      so key uniqueness and one application per applicant still hold. */
  lemma MarkingKeepsRows(apps: seq<Application>, email: string)
    ensures var r := MarkDecisionsSeen(apps, email);
      forall i :: 0 <= i < |apps| ==> r[i].(decisionSeen := apps[i].decisionSeen) == apps[i]
    ensures DistinctIds(apps) ==> DistinctIds(MarkDecisionsSeen(apps, email))
    ensures OneApplicationPerApplicant(apps) ==> OneApplicationPerApplicant(MarkDecisionsSeen(apps, email))
  {
    var r := MarkDecisionsSeen(apps, email);
    forall i | 0 <= i < |apps|
      ensures r[i].id == apps[i].id && r[i].advert == apps[i].advert && r[i].email == apps[i].email
    {
    }
  }
}
