/** The backend's state: the three module-level tables, held as fields of one
    object. Submitting, reporting and creating push one record at the end;
    reviewing, prosecuting and changing a user's status find the first record
    with the given id and overwrite some of its fields. Reads of the tables
    are the functions of module MockApi applied to these fields. */
module Backend {
  import opened Common
  import opened Records
  import opened MockApi

  const SubmittedMessage := "GI Application submitted successfully"
  const ReviewedMessage := "Application status updated successfully"
  const ApplicationNotFound := "Application not found"
  const ReportedMessage := "Non-GI product violation reported successfully"
  const ProsecutedMessage := "Prosecution proceedings initiated successfully"
  const ViolationNotFound := "Violation record not found"
  const UserCreatedMessage := "User created successfully"
  const UserUpdatedMessage := "User status updated successfully"
  const UserNotFound := "User not found"

  /** Every user id is its position plus one, as `createUser` assigns them. */
  ghost predicate SequentialUserIds(users: seq<User>)
  {
    forall i :: 0 <= i < |users| ==> users[i].id == i + 1
  }

  /** "001" and "002": the padded numbers of the two seeded records. */
  lemma FirstPaddedNumbers()
    ensures PadStart(Decimal(1), 3, '0') == "001"
    ensures PadStart(Decimal(2), 3, '0') == "002"
  {
    assert Decimal(1) == "1" && Decimal(2) == "2";
    assert Repeat('0', 2) == "00";
  }

  /** The seeded applications GI001 and GI002 carry the ids the append rule
      would have given them. */
  lemma SeedApplicationIdsSequential()
    ensures SequentialIds(ApplicationIds(SeedApplications), ApplicationPrefix)
  {
    FirstPaddedNumbers();
    var a := ApplicationIds(SeedApplications);
    assert |a| == 2 && a[0] == "GI001" && a[1] == "GI002";
    assert NextId(ApplicationPrefix, 0) == "GI001" && NextId(ApplicationPrefix, 1) == "GI002";
  }

  /** The same for the seeded violations NONGI001 and NONGI002. */
  lemma SeedViolationIdsSequential()
    ensures SequentialIds(ViolationIds(SeedViolations), ViolationPrefix)
  {
    FirstPaddedNumbers();
    var v := ViolationIds(SeedViolations);
    assert |v| == 2 && v[0] == "NONGI001" && v[1] == "NONGI002";
    assert NextId(ViolationPrefix, 0) == "NONGI001" && NextId(ViolationPrefix, 1) == "NONGI002";
  }

  /** The seed tables already follow the id rules the append operations use. */
  lemma SeedIdsSequential()
    ensures SequentialIds(ApplicationIds(SeedApplications), ApplicationPrefix)
    ensures SequentialIds(ViolationIds(SeedViolations), ViolationPrefix)
    ensures SequentialUserIds(SeedUsers)
  {
    SeedApplicationIdsSequential();
    SeedViolationIdsSequential();
  }

  class MockBackend {
    var users: seq<User>
    var applications: seq<Application>
    var violations: seq<Violation>

    /** While every record came from the append operations without a
        caller-supplied id, each table's ids follow the sequence. */
    ghost predicate IdsGenerated()
      reads this
    {
      && SequentialIds(ApplicationIds(applications), ApplicationPrefix)
      && SequentialIds(ViolationIds(violations), ViolationPrefix)
      && SequentialUserIds(users)
    }

    /** The backend as the module loads it: the seed tables. */
    constructor ()
      ensures users == SeedUsers && applications == SeedApplications
      ensures violations == SeedViolations
      ensures IdsGenerated()
    {
      users := SeedUsers;
      applications := SeedApplications;
      violations := SeedViolations;
      SeedIdsSequential();
    }

    /** `giApplicationService.submitApplication`, with the clock reading as
        `now`. */
    method SubmitApplication(data: ApplicationData, now: string)
      returns (applicationId: string, message: string)
      modifies this`applications
      ensures applications == old(applications) + [NewApplication(|old(applications)|, data, now)]
      ensures applicationId == applications[|applications| - 1].id
      ensures message == SubmittedMessage
      ensures old(IdsGenerated()) && data.id.None? ==> IdsGenerated()
    {
      var application := NewApplication(|applications|, data, now);
      ApplicationIdsSnoc(applications, application);
      if IdsGenerated() && data.id.None? {
        SequentialIdsSnoc(ApplicationIds(applications), ApplicationPrefix);
      }
      applications := applications + [application];
      applicationId := application.id;
      message := SubmittedMessage;
    }

    /** `giApplicationService.updateApplicationStatus`. */
    method UpdateApplicationStatus(applicationId: string, status: string, remarks: string)
      returns (success: bool, message: string)
      modifies this`applications
      ensures match MockApi.UpdateApplicationStatus(old(applications), applicationId, status, remarks)
        case Updated(t) => success && applications == t && message == ReviewedMessage
        case NotFound => !success && applications == old(applications) && message == ApplicationNotFound
      ensures ApplicationIds(applications) == ApplicationIds(old(applications))
      ensures old(IdsGenerated()) ==> IdsGenerated()
    {
      var found := FindApplication(applications, applicationId);
      if found.Some? {
        var i := found.value;
        var reviewed := Reviewed(applications[i], status, remarks);
        assert reviewed.id == applications[i].id;
        applications := applications[i := reviewed];
        success, message := true, ReviewedMessage;
      } else {
        success, message := false, ApplicationNotFound;
      }
      assert ApplicationIds(applications) == ApplicationIds(old(applications));
    }

    /** `violationService.reportViolation`, with the clock reading as `now`. */
    method ReportViolation(data: ViolationData, now: string)
      returns (violationId: string, message: string)
      modifies this`violations
      ensures violations == old(violations) + [NewViolation(|old(violations)|, data, now)]
      ensures violationId == violations[|violations| - 1].id
      ensures message == ReportedMessage
      ensures old(IdsGenerated()) && data.id.None? ==> IdsGenerated()
    {
      var violation := NewViolation(|violations|, data, now);
      ViolationIdsSnoc(violations, violation);
      if IdsGenerated() && data.id.None? {
        SequentialIdsSnoc(ViolationIds(violations), ViolationPrefix);
      }
      violations := violations + [violation];
      violationId := violation.id;
      message := ReportedMessage;
    }

    /** `violationService.initiateProsecution`. */
    method InitiateProsecution(violationId: string, details: string)
      returns (success: bool, message: string)
      modifies this`violations
      ensures match MockApi.InitiateProsecution(old(violations), violationId, details)
        case Updated(t) => success && violations == t && message == ProsecutedMessage
        case NotFound => !success && violations == old(violations) && message == ViolationNotFound
      ensures ViolationIds(violations) == ViolationIds(old(violations))
      ensures old(IdsGenerated()) ==> IdsGenerated()
    {
      var found := FindViolation(violations, violationId);
      if found.Some? {
        var i := found.value;
        violations := violations[i := Prosecuted(violations[i], details)];
        success, message := true, ProsecutedMessage;
      } else {
        success, message := false, ViolationNotFound;
      }
    }

    /** `userService.createUser`, with the clock reading as `now`. */
    method CreateUser(data: UserData, now: string) returns (userId: int, message: string)
      modifies this`users
      ensures users == old(users) + [NewUser(|old(users)|, data, now)]
      ensures userId == users[|users| - 1].id
      ensures message == UserCreatedMessage
      ensures old(IdsGenerated()) && data.id.None? ==> IdsGenerated()
    {
      var user := NewUser(|users|, data, now);
      users := users + [user];
      userId := user.id;
      message := UserCreatedMessage;
    }

    /** `userService.updateUserStatus`. */
    method UpdateUserStatus(userId: int, status: string) returns (success: bool, message: string)
      modifies this`users
      ensures match MockApi.UpdateUserStatus(old(users), userId, status)
        case Updated(t) => success && users == t && message == UserUpdatedMessage
        case NotFound => !success && users == old(users) && message == UserNotFound
      ensures old(IdsGenerated()) ==> IdsGenerated()
    {
      var found := FindUser(users, userId);
      if found.Some? {
        var i := found.value;
        users := users[i := users[i].(status := status)];
        success, message := true, UserUpdatedMessage;
      } else {
        success, message := false, UserNotFound;
      }
    }
  }
}
