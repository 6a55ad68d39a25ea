/** What each operation of the in-memory backend computes, as functions of
    the tables it reads: the credential lookup, the owner filters, the new
    records that the append operations build (sequential id, fixed
    defaults), and the find-by-id-then-overwrite updates. The class in
    module Backend holds the tables and applies these. */
module MockApi {
  import opened Common
  import opened Records

  // ---------------------------------------------------------------------
  // Constants written by the backend
  // ---------------------------------------------------------------------

  const InvalidCredentials := "Invalid credentials"
  const ApplicationPrefix := "GI"
  const ViolationPrefix := "NONGI"
  const ReceivedRemarks := "Application received and under initial review"
  const ReportedAction := "Violation reported and assigned for investigation"
  const ProsecutionPrefix := "Legal proceedings initiated: "
  /** Every review is recorded as made by this account, whoever makes it. */
  const ReviewingOfficer := "officer@giboard.gov.in"
  /** The stage `initiateProsecution` writes. */
  const LegalNoticeSent := "legal_notice_sent"

  /** The outcome of a find-by-id-then-overwrite: the new table, or no
      record had that id. */
  datatype Update<T> = Updated(table: seq<T>) | NotFound

  // ---------------------------------------------------------------------
  // authService.login and userService.getAllUsers
  // ---------------------------------------------------------------------

  datatype LoginResult =
    | LoginSucceeded(user: PublicUser, token: string)
    | LoginFailed(message: string)

  predicate CredentialsMatch(u: User, username: string, password: string)
  {
    u.username == username && u.password == password
  }

  /** The stored user without its `password` key. */
  function Redact(u: User): (p: PublicUser)
    ensures p.id == u.id && p.username == u.username && p.role == u.role && p.name == u.name
    ensures p.organization == u.organization && p.status == u.status && p.createdAt == u.createdAt
  {
    PublicUser(u.id, u.username, u.role, u.name, u.organization, u.status, u.createdAt)
  }

  /** The session token, built from the user's id and the clock reading `now`
      (milliseconds, as `Date.now()` gives them). */
  function Token(id: int, now: nat): string
  {
    "mock_token_" + IntToString(id) + "_" + Decimal(now)
  }

  /** Login succeeds exactly when some user has that username AND that
      password; the first such user is returned without its password. The
      account's `status` plays no part. */
  function Login(users: seq<User>, username: string, password: string, now: nat): (r: LoginResult)
    ensures r.LoginSucceeded? <==>
              exists i :: 0 <= i < |users| && CredentialsMatch(users[i], username, password)
    ensures r.LoginFailed? ==> r.message == InvalidCredentials
    ensures r.LoginSucceeded? ==>
              exists i :: 0 <= i < |users| && CredentialsMatch(users[i], username, password)
                && (forall j :: 0 <= j < i ==> !CredentialsMatch(users[j], username, password))
                && r.user == Redact(users[i]) && r.token == Token(users[i].id, now)
  {
    match FindFirst(users, u => CredentialsMatch(u, username, password))
    case None => LoginFailed(InvalidCredentials)
    case Some(i) => LoginSucceeded(Redact(users[i]), Token(users[i].id, now))
  }

  /** `getAllUsers`: every user, in table order, without its password. */
  function AllUsers(users: seq<User>): (r: seq<PublicUser>)
    ensures |r| == |users|
    ensures forall i :: 0 <= i < |users| ==> r[i] == Redact(users[i])
  {
    if users == [] then [] else [Redact(users[0])] + AllUsers(users[1..])
  }

  // ---------------------------------------------------------------------
  // Sequential identifiers: prefix + String(count + 1).padStart(3, '0')
  // ---------------------------------------------------------------------

  function NextId(prefix: string, count: nat): (id: string)
    ensures |id| == |prefix| + if |Decimal(count + 1)| < 3 then 3 else |Decimal(count + 1)|
    ensures id[..|prefix|] == prefix
  {
    prefix + PadStart(Decimal(count + 1), 3, '0')
  }

  /** Reads back the sequence number of an identifier with the given prefix. */
  function ParseId(prefix: string, id: string): Option<nat>
  {
    if |prefix| < |id| && id[..|prefix|] == prefix && AllDigits(id[|prefix|..])
    then Some(DecimalValue(id[|prefix|..]))
    else None
  }

  /** The identifier given to the record appended to a table of `count`
      records carries the number count + 1. */
  lemma NextIdRoundTrip(prefix: string, count: nat)
    ensures ParseId(prefix, NextId(prefix, count)) == Some(count + 1)
  {
    var digits := PadStart(Decimal(count + 1), 3, '0');
    var id := NextId(prefix, count);
    assert id[|prefix|..] == digits;
    PaddedDecimalValue(count + 1, 3);
  }

  /** Distinct counts give distinct identifiers. */
  lemma NextIdInjective(prefix: string, m: nat, n: nat)
    requires NextId(prefix, m) == NextId(prefix, n)
    ensures m == n
  {
    NextIdRoundTrip(prefix, m);
    NextIdRoundTrip(prefix, n);
  }

  /** The records' ids are exactly those the append rule hands out, in order. */
  ghost predicate SequentialIds(ids: seq<string>, prefix: string)
  {
    forall i :: 0 <= i < |ids| ==> ids[i] == NextId(prefix, i)
  }

  /** While only generated ids are used, no two records share an id. */
  lemma SequentialIdsDistinct(ids: seq<string>, prefix: string)
    requires SequentialIds(ids, prefix)
    ensures forall i, j :: 0 <= i < j < |ids| ==> ids[i] != ids[j]
  {
    forall i, j | 0 <= i < j < |ids|
      ensures ids[i] != ids[j]
    {
      if ids[i] == ids[j] {
        NextIdInjective(prefix, i, j);
      }
    }
  }

  function ApplicationIds(apps: seq<Application>): (ids: seq<string>)
    ensures |ids| == |apps| && forall i {:trigger ids[i]} :: 0 <= i < |apps| ==> ids[i] == apps[i].id
  {
    seq(|apps|, i requires 0 <= i < |apps| => apps[i].id)
  }

  function ViolationIds(vs: seq<Violation>): (ids: seq<string>)
    ensures |ids| == |vs| && forall i {:trigger ids[i]} :: 0 <= i < |vs| ==> ids[i] == vs[i].id
  {
    seq(|vs|, i requires 0 <= i < |vs| => vs[i].id)
  }

  /** Appending the id the rule hands out next keeps the ids sequential. */
  lemma SequentialIdsSnoc(ids: seq<string>, prefix: string)
    requires SequentialIds(ids, prefix)
    ensures SequentialIds(ids + [NextId(prefix, |ids|)], prefix)
  {
    var t := ids + [NextId(prefix, |ids|)];
    forall i | 0 <= i < |t|
      ensures t[i] == NextId(prefix, i)
    {
      if i < |ids| {
        assert t[i] == ids[i];
      }
    }
  }

  /** The id list of a table with one more application. */
  lemma ApplicationIdsSnoc(apps: seq<Application>, a: Application)
    ensures ApplicationIds(apps + [a]) == ApplicationIds(apps) + [a.id]
  {
    var t := apps + [a];
    assert forall i :: 0 <= i < |apps| ==> t[i] == apps[i];
  }

  /** The id list of a table with one more violation. */
  lemma ViolationIdsSnoc(vs: seq<Violation>, v: Violation)
    ensures ViolationIds(vs + [v]) == ViolationIds(vs) + [v.id]
  {
    var t := vs + [v];
    assert forall i :: 0 <= i < |vs| ==> t[i] == vs[i];
  }

  // ---------------------------------------------------------------------
  // giApplicationService
  // ---------------------------------------------------------------------

  /** The record `submitApplication` appends to a table of `count` records.
      The generated id is written BEFORE the caller's data, so a caller's
      own `id` wins; the defaults are written AFTER it, so they always win. */
  function NewApplication(count: nat, data: ApplicationData, now: string): (a: Application)
    ensures a.id == if data.id.Some? then data.id.value else NextId(ApplicationPrefix, count)
    ensures a.status == "submitted" && a.submittedAt == now && a.reviewedBy == None
    ensures a.tradeCenterRemarks == ReceivedRemarks && a.prosecutionHistory == []
    ensures a.productName == data.productName && a.applicantName == data.applicantName
    ensures a.applicantEmail == data.applicantEmail && a.category == data.category
    ensures a.district == data.district && a.description == data.description
    ensures a.documents == data.documents
  {
    Application(
      if data.id.Some? then data.id.value else NextId(ApplicationPrefix, count),
      data.productName, data.applicantName, data.applicantEmail, data.category,
      data.district, data.description, data.documents,
      "submitted", now, None, ReceivedRemarks, [])
  }

  /** Whatever values a caller sends for the keys the backend writes after
      the spread, the new record is the same. */
  lemma ApplicationDefaultsOverrideCaller(count: nat, d1: ApplicationData, d2: ApplicationData, now: string)
    requires d1.(status := d2.status, submittedAt := d2.submittedAt, reviewedBy := d2.reviewedBy,
                 tradeCenterRemarks := d2.tradeCenterRemarks,
                 prosecutionHistory := d2.prosecutionHistory) == d2
    ensures NewApplication(count, d1, now) == NewApplication(count, d2, now)
  {
  }

  /** `getMyApplications(email)`: the applications filed under that email. */
  function MyApplications(apps: seq<Application>, email: string): (r: seq<Application>)
    ensures forall a :: a in r <==> a in apps && a.applicantEmail == email
  {
    Filter(apps, (a: Application) => a.applicantEmail == email)
  }

  /** The owner filter keeps store order: filtering two consecutive parts of
      the table gives the two filtered parts one after the other. */
  lemma MyApplicationsAppend(a: seq<Application>, b: seq<Application>, email: string)
    ensures MyApplications(a + b, email) == MyApplications(a, email) + MyApplications(b, email)
  {
    FilterAppend(a, b, (x: Application) => x.applicantEmail == email);
  }

  /** The record `updateApplicationStatus` writes: only `status`,
      `tradeCenterRemarks` and `reviewedBy` change. */
  function Reviewed(a: Application, status: string, remarks: string): (r: Application)
    ensures r.status == status && r.tradeCenterRemarks == remarks
    ensures r.reviewedBy == Some(ReviewingOfficer)
    ensures r.(status := a.status, tradeCenterRemarks := a.tradeCenterRemarks,
               reviewedBy := a.reviewedBy) == a
  {
    a.(status := status, tradeCenterRemarks := remarks, reviewedBy := Some(ReviewingOfficer))
  }

  /** The `find` by id in `updateApplicationStatus`: the first application
      carrying that id. */
  function FindApplication(apps: seq<Application>, id: string): (r: Option<nat>)
    ensures r.None? <==> forall j :: 0 <= j < |apps| ==> apps[j].id != id
    ensures r.Some? ==> r.value < |apps| && apps[r.value].id == id
                        && forall j :: 0 <= j < r.value ==> apps[j].id != id
  {
    FindFirst(apps, (a: Application) => a.id == id)
  }

  /** `updateApplicationStatus`: the first application with that id is
      reviewed, whatever its current status and whatever the new one; no
      record with that id leaves the table as it was. */
  function UpdateApplicationStatus(apps: seq<Application>, id: string, status: string, remarks: string)
    : (r: Update<Application>)
    ensures r.NotFound? <==> forall j :: 0 <= j < |apps| ==> apps[j].id != id
    ensures r.Updated? ==>
              exists i :: 0 <= i < |apps| && apps[i].id == id
                && (forall j :: 0 <= j < i ==> apps[j].id != id)
                && r.table == apps[i := Reviewed(apps[i], status, remarks)]
  {
    match FindApplication(apps, id)
    case None => NotFound
    case Some(i) => Updated(apps[i := Reviewed(apps[i], status, remarks)])
  }

  /** Reviewing twice with the same arguments leaves the same table as
      reviewing once. */
  lemma ReviewIdempotent(apps: seq<Application>, id: string, status: string, remarks: string)
    requires UpdateApplicationStatus(apps, id, status, remarks).Updated?
    ensures var t := UpdateApplicationStatus(apps, id, status, remarks).table;
            UpdateApplicationStatus(t, id, status, remarks) == Updated(t)
  {
    var i := FindApplication(apps, id).value;
    var t := apps[i := Reviewed(apps[i], status, remarks)];
    SameFirstApplication(apps, t, id, i);
    assert t[i := Reviewed(t[i], status, remarks)] == t;
  }

  /** Two tables with the same ids at every position have the same first
      record with a given id. */
  lemma SameFirstApplication(apps: seq<Application>, t: seq<Application>, id: string, i: nat)
    requires |t| == |apps| && forall j :: 0 <= j < |t| ==> t[j].id == apps[j].id
    requires i < |apps| && apps[i].id == id && forall j :: 0 <= j < i ==> apps[j].id != id
    ensures FindApplication(t, id) == Some(i)
  {
  }

  /** A review changes neither ids nor owners, so every owner's list keeps
      its length and the table its ids. */
  lemma ReviewKeepsIdsAndOwners(apps: seq<Application>, id: string, status: string, remarks: string, email: string)
    requires UpdateApplicationStatus(apps, id, status, remarks).Updated?
    ensures var t := UpdateApplicationStatus(apps, id, status, remarks).table;
            ApplicationIds(t) == ApplicationIds(apps)
            && |MyApplications(t, email)| == |MyApplications(apps, email)|
  {
    var t := UpdateApplicationStatus(apps, id, status, remarks).table;
    var i :| 0 <= i < |apps| && apps[i].id == id
             && (forall j :: 0 <= j < i ==> apps[j].id != id)
             && t == apps[i := Reviewed(apps[i], status, remarks)];
    assert ApplicationIds(t) == ApplicationIds(apps);
    FilterUpdateLength(apps, i, Reviewed(apps[i], status, remarks),
                       (a: Application) => a.applicantEmail == email);
  }

  // ---------------------------------------------------------------------
  // violationService
  // ---------------------------------------------------------------------

  /** The record `reportViolation` appends to a table of `count` records:
      a caller's `id` wins over the generated one, the defaults always win. */
  function NewViolation(count: nat, data: ViolationData, now: string): (v: Violation)
    ensures v.id == if data.id.Some? then data.id.value else NextId(ViolationPrefix, count)
    ensures v.status == "reported" && v.reportedAt == now && v.actionTaken == ReportedAction
    ensures v.associationNotified && v.prosecutionStatus == "pending"
    ensures v.productName == data.productName && v.violatorCompany == data.violatorCompany
    ensures v.reportedBy == data.reportedBy && v.violationType == data.violationType
    ensures v.evidence == data.evidence && v.description == Some(data.description)
  {
    Violation(
      if data.id.Some? then data.id.value else NextId(ViolationPrefix, count),
      data.productName, data.violatorCompany, data.reportedBy, data.violationType,
      data.evidence, Some(data.description),
      "reported", now, ReportedAction, true, "pending")
  }

  /** `getMyViolations(email)`: the violations reported by that email. */
  function MyViolations(vs: seq<Violation>, email: string): (r: seq<Violation>)
    ensures forall v :: v in r <==> v in vs && v.reportedBy == email
  {
    Filter(vs, (v: Violation) => v.reportedBy == email)
  }

  lemma MyViolationsAppend(a: seq<Violation>, b: seq<Violation>, email: string)
    ensures MyViolations(a + b, email) == MyViolations(a, email) + MyViolations(b, email)
  {
    FilterAppend(a, b, (x: Violation) => x.reportedBy == email);
  }

  /** The record `initiateProsecution` writes: only `status`,
      `prosecutionStatus` and `actionTaken` change. */
  function Prosecuted(v: Violation, details: string): (r: Violation)
    ensures r.status == "prosecution_initiated" && r.prosecutionStatus == LegalNoticeSent
    ensures r.actionTaken == ProsecutionPrefix + details
    ensures r.(status := v.status, prosecutionStatus := v.prosecutionStatus,
               actionTaken := v.actionTaken) == v
  {
    v.(status := "prosecution_initiated", prosecutionStatus := LegalNoticeSent,
       actionTaken := ProsecutionPrefix + details)
  }

  /** The `find` by id in `initiateProsecution`. */
  function FindViolation(vs: seq<Violation>, id: string): (r: Option<nat>)
    ensures r.None? <==> forall j :: 0 <= j < |vs| ==> vs[j].id != id
    ensures r.Some? ==> r.value < |vs| && vs[r.value].id == id
                        && forall j :: 0 <= j < r.value ==> vs[j].id != id
  {
    FindFirst(vs, (v: Violation) => v.id == id)
  }

  /** `initiateProsecution`: the first violation with that id is marked as
      prosecuted, whether or not it already was; no record with that id
      leaves the table as it was. */
  function InitiateProsecution(vs: seq<Violation>, id: string, details: string): (r: Update<Violation>)
    ensures r.NotFound? <==> forall j :: 0 <= j < |vs| ==> vs[j].id != id
    ensures r.Updated? ==>
              exists i :: 0 <= i < |vs| && vs[i].id == id
                && (forall j :: 0 <= j < i ==> vs[j].id != id)
                && r.table == vs[i := Prosecuted(vs[i], details)]
  {
    match FindViolation(vs, id)
    case None => NotFound
    case Some(i) => Updated(vs[i := Prosecuted(vs[i], details)])
  }

  /** Prosecuting again with the same details leaves the same table: there
      is no "already prosecuting" refusal and nothing accumulates. */
  lemma ProsecutionIdempotent(vs: seq<Violation>, id: string, details: string)
    requires InitiateProsecution(vs, id, details).Updated?
    ensures var t := InitiateProsecution(vs, id, details).table;
            InitiateProsecution(t, id, details) == Updated(t)
  {
    var i := FindViolation(vs, id).value;
    var t := vs[i := Prosecuted(vs[i], details)];
    SameFirstViolation(vs, t, id, i);
    assert t[i := Prosecuted(t[i], details)] == t;
  }

  /** Two tables with the same ids at every position have the same first
      record with a given id. */
  lemma SameFirstViolation(vs: seq<Violation>, t: seq<Violation>, id: string, i: nat)
    requires |t| == |vs| && forall j :: 0 <= j < |t| ==> t[j].id == vs[j].id
    requires i < |vs| && vs[i].id == id && forall j :: 0 <= j < i ==> vs[j].id != id
    ensures FindViolation(t, id) == Some(i)
  {
  }

  // ---------------------------------------------------------------------
  // userService
  // ---------------------------------------------------------------------

  /** The record `createUser` appends to a table of `count` users: a caller's
      `id` wins over count + 1; `status` and `createdAt` are always the
      backend's. No check that the username is new. */
  function NewUser(count: nat, data: UserData, now: string): (u: User)
    ensures u.id == if data.id.Some? then data.id.value else count + 1
    ensures u.status == "active" && u.createdAt == now
    ensures u.username == data.username && u.password == data.password
    ensures u.role == data.role && u.name == data.name && u.organization == data.organization
  {
    User(if data.id.Some? then data.id.value else count + 1,
         data.username, data.password, data.role, data.name, data.organization, "active", now)
  }

  /** The `find` by id in `updateUserStatus`. */
  function FindUser(users: seq<User>, id: int): (r: Option<nat>)
    ensures r.None? <==> forall j :: 0 <= j < |users| ==> users[j].id != id
    ensures r.Some? ==> r.value < |users| && users[r.value].id == id
                        && forall j :: 0 <= j < r.value ==> users[j].id != id
  {
    FindFirst(users, (u: User) => u.id == id)
  }

  /** `updateUserStatus`: the first user with that id gets the new status,
      and nothing else about it changes. */
  function UpdateUserStatus(users: seq<User>, id: int, status: string): (r: Update<User>)
    ensures r.NotFound? <==> forall j :: 0 <= j < |users| ==> users[j].id != id
    ensures r.Updated? ==>
              exists i :: 0 <= i < |users| && users[i].id == id
                && (forall j :: 0 <= j < i ==> users[j].id != id)
                && r.table == users[i := users[i].(status := status)]
  {
    match FindUser(users, id)
    case None => NotFound
    case Some(i) => Updated(users[i := users[i].(status := status)])
  }

  /** Disabling (or any status change) does not affect who can log in. */
  lemma StatusChangeKeepsLogin(users: seq<User>, id: int, status: string,
                               username: string, password: string, now: nat)
    requires UpdateUserStatus(users, id, status).Updated?
    ensures var t := UpdateUserStatus(users, id, status).table;
            Login(t, username, password, now).LoginSucceeded?
            == Login(users, username, password, now).LoginSucceeded?
  {
    var i := FindUser(users, id).value;
    var t := users[i := users[i].(status := status)];
    assert forall j :: 0 <= j < |users| ==>
      CredentialsMatch(t[j], username, password) == CredentialsMatch(users[j], username, password);
  }
}
