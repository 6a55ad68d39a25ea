/** The decisions the GI-applications page makes on top of the backend:
    which applications it lists, who may file one, the form it prepares and
    the check made before submitting, the closed category and district
    lists, and the status chip's colour, icon and label. */
module GIApplications {
  import opened Common
  import opened Records
  import opened MockApi
  import opened Backend

  const RequiredFieldsMessage := "Please fill in all required fields"
  const SubmittedNoticePrefix := "Application submitted successfully! ID: "

  // ---------------------------------------------------------------------
  // Role gates
  // ---------------------------------------------------------------------

  /** What `loadApplications` shows: admins and officers get every
      application; anyone else gets those filed under their username (none
      when nobody is logged in, as no stored `applicantEmail` is `undefined`). */
  function VisibleApplications(user: Option<PublicUser>, apps: seq<Application>): (r: seq<Application>)
    ensures forall a :: a in r <==>
              a in apps && (IsStaff(user) || (user.Some? && a.applicantEmail == user.value.username))
    ensures IsStaff(user) ==> r == apps
  {
    if IsStaff(user) then apps
    else match user
      case None => []
      case Some(u) => MyApplications(apps, u.username)
  }

  /** The "New GI Application" button: associations and admins. */
  predicate CanSubmitApplication(user: Option<PublicUser>)
  {
    user.Some? && (user.value.role == "association" || user.value.role == "admin")
  }

  /** Who may file on this page: associations and admins; officers see every
      application but cannot file one; nobody logged in can file or sees
      any application. */
  lemma RoleGates(u: PublicUser, apps: seq<Application>)
    ensures u.role == "admin" ==>
              CanSubmitApplication(Some(u)) && VisibleApplications(Some(u), apps) == apps
    ensures u.role == "officer" ==>
              !CanSubmitApplication(Some(u)) && VisibleApplications(Some(u), apps) == apps
    ensures u.role == "association" ==>
              CanSubmitApplication(Some(u))
              && VisibleApplications(Some(u), apps) == MyApplications(apps, u.username)
    ensures !CanSubmitApplication(None) && VisibleApplications(None, apps) == []
  {
  }

  // ---------------------------------------------------------------------
  // New-application form and the submit handler
  // ---------------------------------------------------------------------

  /** The form `handleOpenNewApplication` prepares: the applicant's name and
      email are the current user's (the dialog has no email field, so the
      owner stays the user who opened it); everything else is empty. */
  function NewApplicationForm(user: Option<PublicUser>): (d: ApplicationData)
    ensures d.applicantName == if user.Some? then user.value.name else ""
    ensures d.applicantEmail == if user.Some? then user.value.username else ""
    ensures d.productName == "" && d.category == "" && d.district == ""
    ensures d.description == "" && d.documents == []
    ensures d.id.None? && d.status.None? && d.submittedAt.None? && d.reviewedBy.None?
    ensures d.tradeCenterRemarks.None? && d.prosecutionHistory.None?
  {
    ApplicationData("", if user.Some? then user.value.name else "",
                    if user.Some? then user.value.username else "",
                    "", "", "", [], None, None, None, None, None, None)
  }

  /** The check in `handleSubmitApplication`: product, category and district
      must be non-empty; applicant name and description are not checked. */
  predicate ApplicationFormComplete(form: ApplicationData)
  {
    form.productName != "" && form.category != "" && form.district != ""
  }

  /** `handleSubmitApplication`: an incomplete form is refused without
      calling the backend; otherwise the application is appended and its id
      announced. */
  method HandleSubmitApplication(backend: MockBackend, form: ApplicationData, now: string)
    returns (notice: Notice)
    modifies backend`applications
    ensures !ApplicationFormComplete(form) ==>
              notice == ErrorNotice(RequiredFieldsMessage)
              && backend.applications == old(backend.applications)
    ensures ApplicationFormComplete(form) ==>
              var a := NewApplication(|old(backend.applications)|, form, now);
              backend.applications == old(backend.applications) + [a]
              && notice == SuccessNotice(SubmittedNoticePrefix + a.id)
  {
    if !ApplicationFormComplete(form) {
      return ErrorNotice(RequiredFieldsMessage);
    }
    var id, _ := backend.SubmitApplication(form, now);
    notice := SuccessNotice(SubmittedNoticePrefix + id);
  }

  // ---------------------------------------------------------------------
  // Closed lists
  // ---------------------------------------------------------------------

  const Categories: seq<string> := [
    "Agricultural", "Handicraft", "Textiles", "Food Products",
    "Natural Products", "Manufactured Goods"
  ]

  /** The thirty districts of the district select, in the page's order,
      held as four runs by initial so that distinctness can be shown run by
      run. */
  const DistrictsBToC: seq<string> := [
    "Bagalkot", "Ballari", "Belagavi", "Bengaluru Rural", "Bengaluru Urban",
    "Bidar", "Chamarajanagar", "Chikballapur", "Chikkamagaluru", "Chitradurga"
  ]
  const DistrictsDToH: seq<string> := [
    "Dakshina Kannada", "Davanagere", "Dharwad", "Gadag", "Hassan", "Haveri"
  ]
  const DistrictsKToM: seq<string> := [
    "Kalaburagi", "Kodagu", "Kolar", "Koppal", "Mandya", "Mysuru"
  ]
  const DistrictsRToY: seq<string> := [
    "Raichur", "Ramanagara", "Shivamogga", "Tumakuru", "Udupi",
    "Uttara Kannada", "Vijayapura", "Yadgir"
  ]
  const Districts: seq<string> := DistrictsBToC + DistrictsDToH + DistrictsKToM + DistrictsRToY

  /** Six categories, no two alike. */
  lemma CategoriesClosed()
    ensures |Categories| == 6 && Distinct(Categories) && "Agricultural" in Categories
  {
  }

  /** Thirty districts, Udupi among them. */
  lemma DistrictsClosed()
    ensures |Districts| == 30 && "Udupi" in Districts
  {
    assert Districts[26] == DistrictsRToY[4] == "Udupi";
  }

  /** Every name in `run` is non-empty and starts with a letter from `lo` to
      `hi`. */
  ghost predicate InitialsBetween(run: seq<string>, lo: char, hi: char)
  {
    forall i :: 0 <= i < |run| ==> |run[i]| > 0 && lo <= run[i][0] <= hi
  }

  /** Two duplicate-free runs whose initials do not overlap join into one. */
  lemma JoinRuns(a: seq<string>, b: seq<string>, alo: char, ahi: char, blo: char, bhi: char)
    requires Distinct(a) && InitialsBetween(a, alo, ahi)
    requires Distinct(b) && InitialsBetween(b, blo, bhi)
    requires alo <= ahi < blo <= bhi
    ensures Distinct(a + b) && InitialsBetween(a + b, alo, bhi)
  {
    forall i, j | 0 <= i < |a| && 0 <= j < |b|
      ensures a[i] != b[j]
    {
      assert a[i][0] != b[j][0];
    }
    DistinctConcat(a, b);
    var s := a + b;
    forall i | 0 <= i < |s|
      ensures |s[i]| > 0 && alo <= s[i][0] <= bhi
    {
      if i < |a| {
        assert s[i] == a[i] && |a[i]| > 0 && alo <= a[i][0] <= ahi;
      } else {
        assert s[i] == b[i - |a|] && |b[i - |a|]| > 0 && blo <= b[i - |a|][0] <= bhi;
      }
    }
  }

  lemma RunBToC() ensures Distinct(DistrictsBToC) && InitialsBetween(DistrictsBToC, 'B', 'C') {}
  lemma RunDToH() ensures Distinct(DistrictsDToH) && InitialsBetween(DistrictsDToH, 'D', 'H') {}
  lemma RunKToM() ensures Distinct(DistrictsKToM) && InitialsBetween(DistrictsKToM, 'K', 'M') {}
  lemma RunRToY() ensures Distinct(DistrictsRToY) && InitialsBetween(DistrictsRToY, 'R', 'Y') {}

  /** No district is listed twice: within a run the names differ, and names
      in different runs differ in their first letter. */
  lemma DistrictsDistinct()
    ensures Distinct(Districts)
  {
    RunBToC();
    RunDToH();
    RunKToM();
    RunRToY();
    JoinRuns(DistrictsBToC, DistrictsDToH, 'B', 'C', 'D', 'H');
    JoinRuns(DistrictsBToC + DistrictsDToH, DistrictsKToM, 'B', 'H', 'K', 'M');
    JoinRuns(DistrictsBToC + DistrictsDToH + DistrictsKToM, DistrictsRToY, 'B', 'M', 'R', 'Y');
  }

  // ---------------------------------------------------------------------
  // Status chip
  // ---------------------------------------------------------------------

  /** The application statuses the page gives a colour of their own. */
  const KnownStatuses: seq<string> := ["approved", "rejected", "under_review", "submitted"]

  /** `getStatusColor` of this page. */
  function StatusColor(status: string): Colour
  {
    if status == "approved" then Success
    else if status == "rejected" then Error
    else if status == "under_review" then Warning
    else if status == "submitted" then Info
    else Default
  }

  datatype StatusIcon = CheckCircleIcon | CancelIcon | HourglassEmptyIcon | AssignmentIcon

  /** `getStatusIcon`. */
  function StatusIconOf(status: string): StatusIcon
  {
    if status == "approved" then CheckCircleIcon
    else if status == "rejected" then CancelIcon
    else if status == "under_review" then HourglassEmptyIcon
    else AssignmentIcon
  }

  /** Each known status has its own colour; every other status is Default.
      The icon falls back to Assignment, which `submitted` also uses. */
  lemma StatusChipColoursAndIcons(status: string)
    ensures StatusColor(status) != Default <==> status in KnownStatuses
    ensures forall i, j :: 0 <= i < j < |KnownStatuses| ==>
              StatusColor(KnownStatuses[i]) != StatusColor(KnownStatuses[j])
    ensures StatusIconOf(status) == AssignmentIcon <==> status !in KnownStatuses[..3]
  {
    assert KnownStatuses[..3] == ["approved", "rejected", "under_review"];
  }

  /** The chip's label: `status.replace('_', ' ').toUpperCase()`. */
  function StatusLabel(status: string): (text: string)
    ensures |text| == |status|
  {
    ChipLabel(status)
  }
}
