# GI Yatra: a verified model of the mock backend and its two workflow pages

GI Yatra is a web front end for Geographical Indication (GI) work in
Karnataka. Associations file GI applications and report non-GI products
that misuse a GI. Officers and administrators review the applications and
start prosecutions. All data lives in an in-memory backend: three tables
(users, GI applications, violations) that start from fixed seed records.
Appends give each new record a sequential id. Updates find the first
record with a given id and overwrite a few of its fields.

This Dafny project models:

- the backend (`src/services/mockApi.js`): login, the listing and filtering
  reads, the three append operations, and the three find-and-overwrite
  updates;
- the decisions the violation-reporting page and the GI-applications page
  make on top of it: who sees what, who may file or prosecute, the form
  each page prepares, the checks made before calling the backend, the
  prosecution stepper, and the chip colours, icons and labels.

Modules:

- `Common`: `Option`, first-match search, order-keeping filter, decimal
  rendering with `padStart`, and the chip-label text transformation.
- `Records`: the record datatypes, the caller-supplied data shapes, and the
  seed tables.
- `MockApi`: every backend operation as a function of the tables it reads,
  with the lemmas about them.
- `Backend`: class `MockBackend`. It holds the three tables as fields, and
  its methods perform the writes. Each method's postcondition ties the new
  table to the matching `MockApi` function. The three updates always keep
  the sequential-id invariant `IdsGenerated`. The three appends keep it only
  when the caller sends no `id` of its own.
- `ViolationReporting` and `GIApplications`: the two pages.
- `Scenarios`: properties spanning the backend and the pages.

Clock readings (`Date.now()`, `new Date().toISOString()`) are parameters
named `now`.

The model follows the code. It adds no status-transition rules, no
self-review check, no duplicate-username check, no disabled-account check
at login, and no "already prosecuting" refusal. These rules are absent from
the code, and lemmas state that absence:

- `ApprovedBackToSubmitted`: an approved application can be set back to
  "submitted".
- `ProsecutionIdempotent`: prosecuting twice succeeds.
- `StatusChangeKeepsLogin`: a disabled account still logs in.

The backend writes the prosecution stage `legal_notice_sent`. The page's
stepper does not know that stage and shows it as the first step. On the
page, this means a freshly reported violation still shows "Violation
Reported" after it is prosecuted (`ProsecutedRowDisplay`). A direct caller
of the service sees a step backwards: prosecuting the seeded NONGI001 moves
its stepper from "Legal Notice Sent" back to "Violation Reported"
(`LegalNoticeSentUnrecognised`, `SeededProsecutionStepsBack`). The page
cannot make that call. NONGI001 is already marked as prosecuted, so the
page offers the action to nobody (also in `SeededProsecutionStepsBack`).

## Model

| member | source | states |
|---|---|---|
| Backend.SeedApplicationIdsSequential | src/services/mockApi.js:49-80 | the seeded applications carry GI001 and GI002, the ids the append rule gives the first two records |
| Backend.SeedViolationIdsSequential | src/services/mockApi.js:83-110 | the seeded violations carry NONGI001 and NONGI002, the ids the append rule gives the first two records |
| Backend.SeedIdsSequential | src/services/mockApi.js:5-110 | the seeded users are numbered 1-4, the seeded applications GI001-GI002 and the seeded violations NONGI001-NONGI002, exactly as the append rules would number them |
| Backend.MockBackend.constructor | src/services/mockApi.js:5-110 | the backend starts with the seed tables, and the sequential-id invariant holds |
| MockApi.Redact | src/services/mockApi.js:135 | the returned user has every field of the stored one except the password |
| MockApi.Login | src/services/mockApi.js:133-152 | succeeds iff some user has both that username and that password; then it returns the first such user without password, with token `mock_token_<id>_<now>`; otherwise it fails with "Invalid credentials" |
| MockApi.StatusChangeKeepsLogin | src/services/mockApi.js:133 | changing any user's status never changes whether a username/password pair logs in |
| Scenarios.SeedAdministratorLogin | src/services/mockApi.js:133-152 | the seeded administrator logs in with its password and gets id 1 and role admin; any other password fails with "Invalid credentials" |
| MockApi.AllUsers | src/services/mockApi.js:330 | one entry per user, in table order, each the user without its password |
| MockApi.NextId | src/services/mockApi.js:196 | a generated id is its prefix followed by exactly max(3, number of digits of n + 1) characters; with `NextIdRoundTrip` and `Common.Decimal` this fixes those characters as the digits of n + 1, zero-padded to three |
| Common.Decimal | src/services/mockApi.js:196 | `String(n)` is one or more digits with no leading zero (only 0 itself starts with 0), and has two or more digits exactly when n >= 10 |
| Common.PadStart | src/services/mockApi.js:196 | the result has length max(len, width); the original string ends it and only the fill character precedes it |
| MockApi.NextIdRoundTrip | src/services/mockApi.js:196 | the digits after the prefix of the id generated for a table of n records read back as n + 1 |
| MockApi.NextIdInjective | src/services/mockApi.js:263 | different table sizes never generate the same id |
| MockApi.SequentialIdsDistinct | src/services/mockApi.js:196 | while every id was generated, no two records share an id |
| Scenarios.ThirdApplicationId | src/services/mockApi.js:196 | the third application gets "GI003" |
| MockApi.NewApplication | src/services/mockApi.js:195-203 | the new record keeps the caller's fields; a caller-sent id wins over the generated one; status "submitted", the clock reading, no reviewer, the received remark and an empty history always win |
| MockApi.ApplicationDefaultsOverrideCaller | src/services/mockApi.js:197-202 | callers that differ only in the keys written after the spread produce the same record |
| Backend.MockBackend.SubmitApplication | src/services/mockApi.js:192-212 | appends exactly `NewApplication(old size, data, now)` and returns its id and the success message; the sequential-id invariant is kept when the caller sends no id |
| MockApi.MyApplications | src/services/mockApi.js:226 | an application is listed iff it is in the table and filed under that email |
| MockApi.MyApplicationsAppend | src/services/mockApi.js:226 | the owner filter keeps table order: filtering a concatenation concatenates the filtered parts |
| MockApi.Reviewed | src/services/mockApi.js:239-241 | the reviewed record has the new status and remarks and the fixed officer as reviewer; every other field is unchanged |
| MockApi.FindApplication | src/services/mockApi.js:237 | none iff no application has the id; otherwise the index of the first one that has it |
| MockApi.UpdateApplicationStatus | src/services/mockApi.js:237-252 | not found iff no application has the id; otherwise the table with exactly the first such application replaced by its reviewed form, whatever the old and new status |
| Backend.MockBackend.UpdateApplicationStatus | src/services/mockApi.js:234-253 | the table becomes the function's result, with success and the matching message; when not found the table is unchanged; ids never change |
| MockApi.ReviewIdempotent | src/services/mockApi.js:237-241 | repeating a successful review with the same arguments leaves the table as it is |
| MockApi.ReviewKeepsIdsAndOwners | src/services/mockApi.js:239-241 | a review keeps the table's ids and the length of every owner's list |
| Scenarios.ApprovedBackToSubmitted | src/services/mockApi.js:237-246 | the approved seed GI002 can be set back to "submitted": no status transition is refused |
| MockApi.NewViolation | src/services/mockApi.js:262-270 | the new record keeps the caller's fields; a caller-sent id wins; status "reported", the clock reading, the fixed action text, association notified and stage "pending" always win |
| Backend.MockBackend.ReportViolation | src/services/mockApi.js:259-279 | appends exactly `NewViolation(old size, data, now)` and returns its id and the success message; keeps the invariant when no id is sent |
| MockApi.MyViolations | src/services/mockApi.js:293 | a violation is listed iff it is in the table and reported by that email |
| MockApi.MyViolationsAppend | src/services/mockApi.js:293 | the reporter filter keeps table order |
| MockApi.Prosecuted | src/services/mockApi.js:306-308 | status "prosecution_initiated", stage "legal_notice_sent", action "Legal proceedings initiated: " + details; every other field unchanged |
| MockApi.FindViolation | src/services/mockApi.js:304 | none iff no violation has the id; otherwise the index of the first one that has it |
| MockApi.InitiateProsecution | src/services/mockApi.js:304-319 | not found iff no violation has the id; otherwise exactly the first such violation is replaced by its prosecuted form, whether or not it was already prosecuted |
| Backend.MockBackend.InitiateProsecution | src/services/mockApi.js:301-320 | the table becomes the function's result, with success and the matching message; ids never change |
| MockApi.ProsecutionIdempotent | src/services/mockApi.js:304-308 | prosecuting again with the same details succeeds and leaves the table as it is |
| MockApi.NewUser | src/services/mockApi.js:338-343 | the new user keeps the caller's fields; a caller-sent id wins over size + 1; status "active" and the clock reading always win; no username check |
| Backend.MockBackend.CreateUser | src/services/mockApi.js:335-352 | appends exactly `NewUser(old size, data, now)` and returns its id and the success message |
| MockApi.FindUser | src/services/mockApi.js:358 | none iff no user has the id; otherwise the index of the first one that has it |
| MockApi.UpdateUserStatus | src/services/mockApi.js:358-370 | not found iff no user has the id; otherwise exactly the first such user gets the new status and nothing else changes |
| Backend.MockBackend.UpdateUserStatus | src/services/mockApi.js:355-371 | the table becomes the function's result, with success and the matching message |
| Scenarios.GeneratedIdFresh | src/services/mockApi.js:196 | while every id was generated, the next generated id is carried by no record |
| Scenarios.ReviewLast | src/services/mockApi.js:237-241 | reviewing by an id only the last record carries reviews exactly that record |
| Scenarios.ReviewNext | src/services/mockApi.js:196-241 | reviewing by the next generated id reviews the record appended with it |
| Scenarios.SubmitThenReview | src/services/mockApi.js:192-253 | while the ids are the generated ones, reviewing by the id a submission announced reviews that new application and nothing else |
| Scenarios.ProsecuteLast | src/services/mockApi.js:304-308 | prosecuting by an id only the last record carries prosecutes exactly that record |
| Scenarios.ProsecuteNext | src/services/mockApi.js:263-308 | prosecuting by the next generated id prosecutes the record appended with it |
| Scenarios.ReportThenProsecute | src/services/mockApi.js:259-320 | the same for a freshly reported violation |
| ViolationReporting.VisibleViolations | src/components/Violations/ViolationReporting.js:72-76 | admins and officers see the whole table; anyone else sees exactly the violations they reported; nobody logged in sees none |
| ViolationReporting.RoleGates | src/components/Violations/ViolationReporting.js:430-431 | admins may report and prosecute, officers only prosecute, associations only report, nobody logged in neither; prosecution only while the status is not "prosecution_initiated" (the report gate at line 294) |
| ViolationReporting.NewViolationForm | src/components/Violations/ViolationReporting.js:92-102 | the new form is empty except `reportedBy`, the current username (empty with nobody logged in) |
| ViolationReporting.HandleSubmitViolation | src/components/Violations/ViolationReporting.js:146-164 | without product, violator or type the report is refused and the table unchanged; otherwise `NewViolation` is appended and its id announced |
| Scenarios.ReportedViolationListed | src/components/Violations/ViolationReporting.js:92-100 | a report made from the prefilled form shows up at the end of the reporter's own list |
| ViolationReporting.HandleInitiateProsecution | src/components/Violations/ViolationReporting.js:166-185 | empty details are refused with the table unchanged; otherwise the backend's result and message are shown |
| ViolationReporting.CurrentStep | src/components/Violations/ViolationReporting.js:236-253 | the step is always a valid index into the six step labels |
| ViolationReporting.CurrentStepIsStagePosition | src/components/Violations/ViolationReporting.js:236-253 | a recognised stage shows its position in the stage list; any other stage shows step 0 |
| ViolationReporting.LegalNoticeSentUnrecognised | src/components/Violations/ViolationReporting.js:236-252 | "legal_notice_sent", the stage the backend writes, is not recognised and shows "Violation Reported"; "notice_served" shows "Legal Notice Sent" |
| Scenarios.SeededProsecutionStepsBack | src/services/mockApi.js:307 | a direct service call prosecuting the seeded NONGI001 succeeds and moves its stepper from step 3 back to step 0; the page offers that action on NONGI001 to no user |
| Scenarios.ProsecutedRowDisplay | src/components/Violations/ViolationReporting.js:430-431 | after a prosecution the record is red, offers no further prosecution, shows step 0 and records the details |
| ViolationReporting.ViolationTypeColours | src/components/Violations/ViolationReporting.js:202-224 | six distinct types; a type gets a colour other than primary iff it is one of the first four, and those four colours all differ |
| ViolationReporting.StatusColours | src/components/Violations/ViolationReporting.js:187-200 | exactly the four known statuses get a colour other than default, and the four get four pairwise different colours |
| GIApplications.VisibleApplications | src/components/GIApplications/GIApplications.js:75-79 | admins and officers see the whole table; anyone else sees exactly the applications filed under their username; nobody logged in sees none |
| GIApplications.RoleGates | src/components/GIApplications/GIApplications.js:251 | admins and associations may file, officers may not; admins and officers see all, associations their own, nobody logged in nothing |
| GIApplications.NewApplicationForm | src/components/GIApplications/GIApplications.js:91-101 | the new form carries the current user's name and username as applicant, everything else empty |
| GIApplications.HandleSubmitApplication | src/components/GIApplications/GIApplications.js:147-165 | without product, category or district the application is refused and the table unchanged; otherwise `NewApplication` is appended and its id announced |
| Scenarios.FiledApplicationListed | src/components/GIApplications/GIApplications.js:91-100 | an application filed from the prefilled form shows up at the end of the applicant's own list |
| GIApplications.CategoriesClosed | src/components/GIApplications/GIApplications.js:197-204 | six categories, no two alike, Agricultural among them |
| GIApplications.DistrictsClosed | src/components/GIApplications/GIApplications.js:206-213 | thirty districts, Udupi among them |
| GIApplications.DistrictsDistinct | src/components/GIApplications/GIApplications.js:206-213 | no district is offered twice |
| GIApplications.StatusChipColoursAndIcons | src/components/GIApplications/GIApplications.js:167-195 | a status gets a colour other than default iff it is one of the four known ones, each with its own colour; the assignment icon is used iff the status is not approved, rejected or under review |
| GIApplications.StatusLabel | src/components/GIApplications/GIApplications.js:365 | the label is as long as the status |
| Common.ReplaceFirst | src/components/GIApplications/GIApplications.js:365 | only the first occurrence of the character is replaced; with none the string is unchanged |
| Common.ChipLabelShape | src/components/Violations/ViolationReporting.js:398 | the chip text puts a space at the first underscore and upper-cases every other character, keeping the length |

## Left out

- Asynchrony and `simulateDelay`: every operation is modelled as taking effect at once.
- `localStorage`, `logout`, `getCurrentUser` and `isAuthenticated`: session storage is outside the modelled core. Login returns the token instead of storing it.
- `getAllApplications` and `getAllViolations` return the table itself; they appear only as the staff branch of `VisibleApplications` and `VisibleViolations`.
- The listing reads return values. In the code, `getAllApplications` and `getAllViolations` return the live table, and `getMyApplications` and `getMyViolations` return the live record objects, so a listing kept by a caller would see later in-place updates. Both pages reload their list after every write, so what they show is the same.
- The file-upload service, the dashboard service, `App.js`, the login page and the dashboard page are not part of this model.
- React state, dialogs, success/error banners and the reload after each action are not modelled. The handlers return the banner text as a `Notice`.
- Timestamps are opaque strings or numbers passed in as `now`; date formatting is not modelled.
- Common.ToUpper: only the ASCII letters a-z are upper-cased, whereas `toUpperCase` also maps other Unicode letters.
- Caller objects are assumed to carry every form field as a string (or list). A caller that leaves out a form key, or sends extra keys, is not modelled. Among the keys the backend writes itself, only a caller-sent `id` survives, and that is modelled.
- MockApi.FindUser: compares the user id as an integer only. JavaScript's `===` would also refuse a string id such as "1", a case the model cannot express.
- The seeded violations carry no `description` key; the model records this as `None` in `Records.Violation`.
- GIApplications.StatusLabel: its own contract states only the length. The full shape of the label is stated by `Common.ChipLabelShape`, for statuses with an underscore.
- Workflow rules the code does not enforce (status transitions, self-review, unique usernames, refusing disabled accounts at login, refusing a second prosecution) are deliberately not modelled. Lemmas show they are absent.
