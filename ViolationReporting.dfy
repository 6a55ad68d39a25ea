/** The decisions the violation-reporting page makes on top of the backend:
    which violations it lists, who may report and prosecute, the checks made
    before calling the backend, the stepper's stage index, and the chip
    colours. Page state, dialogs and rendering are not modelled. */
module ViolationReporting {
  import opened Common
  import opened Records
  import opened MockApi
  import opened Backend

  const RequiredFieldsMessage := "Please fill in all required fields"
  const MissingDetailsMessage := "Please provide prosecution details"
  const ReportedNoticePrefix := "Violation reported successfully! ID: "

  // ---------------------------------------------------------------------
  // Role gates
  // ---------------------------------------------------------------------

  /** What `loadViolations` shows: admins and officers get every violation;
      anyone else (or nobody logged in) gets those reported under their
      username. With nobody logged in the owner filter runs on `undefined`,
      which no stored `reportedBy` equals. */
  function VisibleViolations(user: Option<PublicUser>, vs: seq<Violation>): (r: seq<Violation>)
    ensures forall v :: v in r <==>
              v in vs && (IsStaff(user) || (user.Some? && v.reportedBy == user.value.username))
    ensures IsStaff(user) ==> r == vs
  {
    if IsStaff(user) then vs
    else match user
      case None => []
      case Some(u) => MyViolations(vs, u.username)
  }

  /** The "Report Violation" button: associations and admins. */
  predicate CanReportViolation(user: Option<PublicUser>)
  {
    user.Some? && (user.value.role == "association" || user.value.role == "admin")
  }

  /** The "Initiate Prosecution" action on a row: admins and officers, and
      only while the violation is not yet marked as prosecuted. */
  predicate CanProsecute(user: Option<PublicUser>, v: Violation)
  {
    IsStaff(user) && v.status != "prosecution_initiated"
  }

  /** Who may do what on this page: admins report and prosecute, officers
      only prosecute, associations only report, and nobody logged in does
      either. Prosecution is offered only while the row is not yet marked. */
  lemma RoleGates(u: PublicUser, v: Violation)
    ensures u.role == "admin" ==>
              CanReportViolation(Some(u)) && (CanProsecute(Some(u), v) <==> v.status != "prosecution_initiated")
    ensures u.role == "officer" ==>
              !CanReportViolation(Some(u)) && (CanProsecute(Some(u), v) <==> v.status != "prosecution_initiated")
    ensures u.role == "association" ==> CanReportViolation(Some(u)) && !CanProsecute(Some(u), v)
    ensures u.role !in ["admin", "officer", "association"] ==>
              !CanReportViolation(Some(u)) && !CanProsecute(Some(u), v)
    ensures !CanReportViolation(None) && !CanProsecute(None, v)
    ensures CanProsecute(Some(u), v) ==> VisibleViolations(Some(u), [v]) == [v]
  {
  }

  // ---------------------------------------------------------------------
  // New-report form and the submit / prosecute handlers
  // ---------------------------------------------------------------------

  /** The form `handleOpenNewViolation` prepares: all fields empty except
      `reportedBy`, the current username (a field the dialog shows disabled). */
  function NewViolationForm(user: Option<PublicUser>): (d: ViolationData)
    ensures d.reportedBy == if user.Some? then user.value.username else ""
    ensures d.productName == "" && d.violatorCompany == "" && d.violationType == ""
    ensures d.description == "" && d.evidence == []
    ensures d.id.None? && d.status.None? && d.reportedAt.None? && d.actionTaken.None?
    ensures d.associationNotified.None? && d.prosecutionStatus.None?
  {
    ViolationData("", "", "", [], "", if user.Some? then user.value.username else "",
                  None, None, None, None, None, None)
  }

  /** The check in `handleSubmitViolation`: product, violator and type must
      be non-empty; the description is not checked. */
  predicate ViolationFormComplete(form: ViolationData)
  {
    form.productName != "" && form.violatorCompany != "" && form.violationType != ""
  }

  /** `handleSubmitViolation`: an incomplete form is refused without calling
      the backend; otherwise the report is appended and its id announced. */
  method HandleSubmitViolation(backend: MockBackend, form: ViolationData, now: string)
    returns (notice: Notice)
    modifies backend`violations
    ensures !ViolationFormComplete(form) ==>
              notice == ErrorNotice(RequiredFieldsMessage)
              && backend.violations == old(backend.violations)
    ensures ViolationFormComplete(form) ==>
              var v := NewViolation(|old(backend.violations)|, form, now);
              backend.violations == old(backend.violations) + [v]
              && notice == SuccessNotice(ReportedNoticePrefix + v.id)
  {
    if !ViolationFormComplete(form) {
      return ErrorNotice(RequiredFieldsMessage);
    }
    var id, _ := backend.ReportViolation(form, now);
    notice := SuccessNotice(ReportedNoticePrefix + id);
  }

  /** `handleInitiateProsecution`: empty details are refused without calling
      the backend; otherwise the backend's answer is shown. */
  method HandleInitiateProsecution(backend: MockBackend, violationId: string, details: string)
    returns (notice: Notice)
    modifies backend`violations
    ensures details == "" ==>
              notice == ErrorNotice(MissingDetailsMessage)
              && backend.violations == old(backend.violations)
    ensures details != "" ==>
              match InitiateProsecution(old(backend.violations), violationId, details)
              case Updated(t) => backend.violations == t && notice == SuccessNotice(ProsecutedMessage)
              case NotFound => backend.violations == old(backend.violations)
                               && notice == ErrorNotice(ViolationNotFound)
  {
    if details == "" {
      return ErrorNotice(MissingDetailsMessage);
    }
    var success, message := backend.InitiateProsecution(violationId, details);
    notice := if success then SuccessNotice(ProsecutedMessage) else ErrorNotice(message);
  }

  // ---------------------------------------------------------------------
  // Prosecution stepper
  // ---------------------------------------------------------------------

  const ProsecutionSteps: seq<string> := [
    "Violation Reported", "Investigation Assigned", "Evidence Reviewed",
    "Legal Notice Sent", "Court Proceedings", "Resolution"
  ]

  /** The `prosecutionStatus` values the stepper recognises, in step order. */
  const RecognisedStages: seq<string> := [
    "pending", "investigation_assigned", "evidence_review",
    "notice_served", "court_proceedings", "resolved"
  ]

  /** `currentStep` in `getProsecutionSteps`: always a valid index into the
      six step labels; unrecognised stages show the first step. */
  function CurrentStep(prosecutionStatus: string): (step: nat)
    ensures step < |ProsecutionSteps|
  {
    if prosecutionStatus == "pending" then 0
    else if prosecutionStatus == "investigation_assigned" then 1
    else if prosecutionStatus == "evidence_review" then 2
    else if prosecutionStatus == "notice_served" then 3
    else if prosecutionStatus == "court_proceedings" then 4
    else if prosecutionStatus == "resolved" then 5
    else 0
  }

  /** The step shown is the stage's position in the recognised list, and 0
      for any stage outside it. */
  lemma CurrentStepIsStagePosition(prosecutionStatus: string)
    ensures prosecutionStatus in RecognisedStages ==>
              RecognisedStages[CurrentStep(prosecutionStatus)] == prosecutionStatus
    ensures prosecutionStatus !in RecognisedStages ==> CurrentStep(prosecutionStatus) == 0
  {
  }

  /** The stage the backend writes on prosecution is not one the stepper
      knows: it shows "Violation Reported", while the seeded
      `notice_served` shows "Legal Notice Sent". */
  lemma LegalNoticeSentUnrecognised()
    ensures LegalNoticeSent !in RecognisedStages
    ensures ProsecutionSteps[CurrentStep(LegalNoticeSent)] == "Violation Reported"
    ensures ProsecutionSteps[CurrentStep("notice_served")] == "Legal Notice Sent"
  {
  }

  // ---------------------------------------------------------------------
  // Violation types and chip colours
  // ---------------------------------------------------------------------

  const ViolationTypes: seq<string> := [
    "trademark_infringement", "geographical_misuse", "quality_violation",
    "unauthorized_use", "false_advertising", "counterfeit_products"
  ]

  /** `getStatusColor` of this page. */
  function StatusColor(status: string): Colour
  {
    if status == "prosecution_initiated" then Error
    else if status == "under_investigation" then Warning
    else if status == "reported" then Info
    else if status == "resolved" then Success
    else Default
  }

  /** `getViolationTypeColor`. */
  function ViolationTypeColor(violationType: string): Colour
  {
    if violationType == "trademark_infringement" then Error
    else if violationType == "geographical_misuse" then Warning
    else if violationType == "quality_violation" then Info
    else if violationType == "unauthorized_use" then Secondary
    else Primary
  }

  /** Six distinct types; the first four get colours of their own, all four
      different, and every other value (the last two types included) gets
      Primary. */
  lemma ViolationTypeColours(violationType: string)
    ensures |ViolationTypes| == 6 && Distinct(ViolationTypes)
    ensures ViolationTypeColor(violationType) != Primary <==> violationType in ViolationTypes[..4]
    ensures forall i, j :: 0 <= i < j < 4 ==>
              ViolationTypeColor(ViolationTypes[i]) != ViolationTypeColor(ViolationTypes[j])
  {
    assert ViolationTypes[..4] ==
      ["trademark_infringement", "geographical_misuse", "quality_violation", "unauthorized_use"];
  }

  /** The violation statuses the page gives a colour of their own. */
  const KnownStatuses: seq<string> := ["prosecution_initiated", "under_investigation", "reported", "resolved"]

  /** The four statuses the page knows get four different colours; every
      other status, `submitted` included, gets Default. */
  lemma StatusColours(status: string)
    ensures StatusColor(status) != Default <==> status in KnownStatuses
    ensures forall i, j :: 0 <= i < j < |KnownStatuses| ==>
              StatusColor(KnownStatuses[i]) != StatusColor(KnownStatuses[j])
  {
  }
}
