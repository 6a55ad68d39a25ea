/** Properties that span the backend and the two pages: what a user sees after
    filing, what the stepper shows after a prosecution, the seeded accounts
    and records, and the absence of any workflow rule on status changes. */
module Scenarios {
  import opened Common
  import opened Records
  import opened MockApi
  import opened Backend
  import ViolationReporting
  import GIApplications

  // ---------------------------------------------------------------------
  // Filing and listing
  // ---------------------------------------------------------------------

  /** An association that files from the prefilled form (whose email is its
      own username) finds the new application at the end of its list, after
      everything it saw before. */
  lemma FiledApplicationListed(apps: seq<Application>, u: PublicUser, form: ApplicationData, now: string)
    requires form.applicantEmail == GIApplications.NewApplicationForm(Some(u)).applicantEmail
    ensures var a := NewApplication(|apps|, form, now);
            GIApplications.VisibleApplications(Some(u), apps + [a])
              == GIApplications.VisibleApplications(Some(u), apps) + [a]
  {
    FilterSnoc(apps, NewApplication(|apps|, form, now), (x: Application) => x.applicantEmail == u.username);
  }

  /** The same for a violation reported from the prefilled form. */
  lemma ReportedViolationListed(vs: seq<Violation>, u: PublicUser, form: ViolationData, now: string)
    requires form.reportedBy == ViolationReporting.NewViolationForm(Some(u)).reportedBy
    ensures var v := NewViolation(|vs|, form, now);
            ViolationReporting.VisibleViolations(Some(u), vs + [v])
              == ViolationReporting.VisibleViolations(Some(u), vs) + [v]
  {
    FilterSnoc(vs, NewViolation(|vs|, form, now), (x: Violation) => x.reportedBy == u.username);
  }

  // ---------------------------------------------------------------------
  // Generated ids find the record they were given to
  // ---------------------------------------------------------------------

  /** The sequential-id rule read off the records themselves. */
  lemma ApplicationIdsNumbered(apps: seq<Application>, prefix: string)
    requires SequentialIds(ApplicationIds(apps), prefix)
    ensures forall i :: 0 <= i < |apps| ==> apps[i].id == NextId(prefix, i)
  {
    var ids := ApplicationIds(apps);
    forall i | 0 <= i < |apps|
      ensures apps[i].id == NextId(prefix, i)
    {
      assert ids[i] == apps[i].id;
    }
  }

  /** The same for the violation table. */
  lemma ViolationIdsNumbered(vs: seq<Violation>, prefix: string)
    requires SequentialIds(ViolationIds(vs), prefix)
    ensures forall i :: 0 <= i < |vs| ==> vs[i].id == NextId(prefix, i)
  {
    var ids := ViolationIds(vs);
    forall i | 0 <= i < |vs|
      ensures vs[i].id == NextId(prefix, i)
    {
      assert ids[i] == vs[i].id;
    }
  }

  /** While every id was generated, the next generated id is carried by no
      record yet. */
  lemma GeneratedIdFresh(ids: seq<string>, prefix: string)
    requires SequentialIds(ids, prefix)
    ensures NextId(prefix, |ids|) !in ids
  {
    forall j | 0 <= j < |ids|
      ensures ids[j] != NextId(prefix, |ids|)
    {
      if ids[j] == NextId(prefix, |ids|) {
        NextIdInjective(prefix, j, |ids|);
      }
    }
  }

  /** Reviewing by an id that only the last application carries reviews
      exactly that one. */
  lemma ReviewLast(apps: seq<Application>, a: Application, status: string, remarks: string)
    requires forall j :: 0 <= j < |apps| ==> apps[j].id != a.id
    ensures UpdateApplicationStatus(apps + [a], a.id, status, remarks)
              == Updated(apps + [Reviewed(a, status, remarks)])
  {
    var t := apps + [a];
    var found := FindApplication(t, a.id);
    assert t[|apps|].id == a.id;
    assert found == Some(|apps|);
    assert t[|apps| := Reviewed(a, status, remarks)] == apps + [Reviewed(a, status, remarks)];
  }

  /** Reviewing by the next generated id reviews the record appended with it:
      no earlier record can carry that id. */
  lemma ReviewNext(apps: seq<Application>, a: Application, prefix: string, status: string, remarks: string)
    requires forall i :: 0 <= i < |apps| ==> apps[i].id == NextId(prefix, i)
    requires a.id == NextId(prefix, |apps|)
    ensures UpdateApplicationStatus(apps + [a], a.id, status, remarks)
              == Updated(apps + [Reviewed(a, status, remarks)])
  {
    forall j | 0 <= j < |apps|
      ensures apps[j].id != a.id
    {
      if apps[j].id == a.id {
        NextIdInjective(prefix, j, |apps|);
      }
    }
    ReviewLast(apps, a, status, remarks);
  }

  /** While the table's ids are the generated ones, reviewing a freshly
      submitted application by the id it was announced with reviews that
      application and no other. */
  lemma SubmitThenReview(apps: seq<Application>, form: ApplicationData, now: string,
                         status: string, remarks: string)
    requires SequentialIds(ApplicationIds(apps), ApplicationPrefix)
    requires form.id.None?
    ensures var a := NewApplication(|apps|, form, now);
            UpdateApplicationStatus(apps + [a], a.id, status, remarks)
              == Updated(apps + [Reviewed(a, status, remarks)])
  {
    ApplicationIdsNumbered(apps, ApplicationPrefix);
    ReviewNext(apps, NewApplication(|apps|, form, now), ApplicationPrefix, status, remarks);
  }

  /** Prosecuting by an id that only the last violation carries prosecutes
      exactly that one. */
  lemma ProsecuteLast(vs: seq<Violation>, v: Violation, details: string)
    requires forall j :: 0 <= j < |vs| ==> vs[j].id != v.id
    ensures InitiateProsecution(vs + [v], v.id, details) == Updated(vs + [Prosecuted(v, details)])
  {
    var t := vs + [v];
    var found := FindViolation(t, v.id);
    assert t[|vs|].id == v.id;
    assert found == Some(|vs|);
    assert t[|vs| := Prosecuted(v, details)] == vs + [Prosecuted(v, details)];
  }

  /** Prosecuting by the next generated id prosecutes the record appended
      with it. */
  lemma ProsecuteNext(vs: seq<Violation>, v: Violation, prefix: string, details: string)
    requires forall i :: 0 <= i < |vs| ==> vs[i].id == NextId(prefix, i)
    requires v.id == NextId(prefix, |vs|)
    ensures InitiateProsecution(vs + [v], v.id, details) == Updated(vs + [Prosecuted(v, details)])
  {
    forall j | 0 <= j < |vs|
      ensures vs[j].id != v.id
    {
      if vs[j].id == v.id {
        NextIdInjective(prefix, j, |vs|);
      }
    }
    ProsecuteLast(vs, v, details);
  }

  /** The same for prosecuting a freshly reported violation. */
  lemma ReportThenProsecute(vs: seq<Violation>, form: ViolationData, now: string, details: string)
    requires SequentialIds(ViolationIds(vs), ViolationPrefix)
    requires form.id.None?
    ensures var v := NewViolation(|vs|, form, now);
            InitiateProsecution(vs + [v], v.id, details)
              == Updated(vs + [Prosecuted(v, details)])
  {
    ViolationIdsNumbered(vs, ViolationPrefix);
    ProsecuteNext(vs, NewViolation(|vs|, form, now), ViolationPrefix, details);
  }

  /** The third application gets "GI003". */
  lemma ThirdApplicationId()
    ensures NextId(ApplicationPrefix, 2) == "GI003"
  {
    assert Decimal(3) == "3";
    assert Repeat('0', 2) == "00";
  }

  // ---------------------------------------------------------------------
  // Prosecution as the stepper shows it
  // ---------------------------------------------------------------------

  /** After a prosecution the row is red and offers no further prosecution,
      and its stepper falls back to the first step, because the stage the
      backend writes is not one the stepper knows. */
  lemma ProsecutedRowDisplay(vs: seq<Violation>, id: string, details: string,
                             user: Option<PublicUser>, i: nat)
    requires InitiateProsecution(vs, id, details).Updated?
    requires FindViolation(vs, id) == Some(i)
    ensures var p := InitiateProsecution(vs, id, details).table[i];
            p.id == id
            && ViolationReporting.StatusColor(p.status) == Error
            && !ViolationReporting.CanProsecute(user, p)
            && ViolationReporting.CurrentStep(p.prosecutionStatus) == 0
            && p.actionTaken == ProsecutionPrefix + details
  {
    ViolationReporting.LegalNoticeSentUnrecognised();
  }

  /** A direct call of the prosecution service on the seeded NONGI001 moves
      its stepper BACK from "Legal Notice Sent" to "Violation Reported". The
      page itself never makes that call: NONGI001 is already marked as
      prosecuted, so nobody is offered the action on it. */
  lemma SeededProsecutionStepsBack(details: string)
    ensures var r := InitiateProsecution(SeedViolations, "NONGI001", details);
            r.Updated?
            && ViolationReporting.CurrentStep(SeedViolations[0].prosecutionStatus) == 3
            && ViolationReporting.CurrentStep(r.table[0].prosecutionStatus) == 0
    ensures forall user :: !ViolationReporting.CanProsecute(user, SeedViolations[0])
  {
    assert FindViolation(SeedViolations, "NONGI001") == Some(0);
  }

  // ---------------------------------------------------------------------
  // Seeded accounts and the absence of workflow rules
  // ---------------------------------------------------------------------

  /** The seeded administrator logs in with its password and gets its role;
      any other password is refused with the one generic message. */
  lemma SeedAdministratorLogin(password: string, now: nat)
    ensures var r := Login(SeedUsers, "admin@gi-yatra.com", "admin123", now);
            r.LoginSucceeded? && r.user.id == 1 && r.user.role == "admin"
    ensures password != "admin123" ==>
              Login(SeedUsers, "admin@gi-yatra.com", password, now) == LoginFailed(InvalidCredentials)
  {
    assert CredentialsMatch(SeedUsers[0], "admin@gi-yatra.com", "admin123");
    assert forall j :: 1 <= j < |SeedUsers| ==> SeedUsers[j].username != "admin@gi-yatra.com";
  }

  /** An approved application can be sent back to "submitted": any status is
      accepted from any status. */
  lemma ApprovedBackToSubmitted(remarks: string)
    ensures SeedApplications[1].status == "approved"
    ensures UpdateApplicationStatus(SeedApplications, "GI002", "submitted", remarks)
              == Updated(SeedApplications[1 := Reviewed(SeedApplications[1], "submitted", remarks)])
  {
    assert FindApplication(SeedApplications, "GI002") == Some(1);
  }
}
