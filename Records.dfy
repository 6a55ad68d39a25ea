/** The three record kinds held by the in-memory backend, the shapes of the
    objects its callers hand in, and the seed tables the backend starts from.
    Timestamps are kept as the opaque strings the backend stores. */
module Records {
  import opened Common

  /** A user account, password in clear, as the backend stores it. */
  datatype User = User(
    id: int,
    username: string,
    password: string,
    role: string,
    name: string,
    organization: string,
    status: string,
    createdAt: string)

  /** A user account with the `password` key taken out. */
  datatype PublicUser = PublicUser(
    id: int,
    username: string,
    role: string,
    name: string,
    organization: string,
    status: string,
    createdAt: string)

  /** Admins and officers: both pages show them every record. */
  predicate IsStaff(user: Option<PublicUser>)
  {
    user.Some? && (user.value.role == "admin" || user.value.role == "officer")
  }

  /** A GI application. `reviewedBy` is `null` (None) until a review. */
  datatype Application = Application(
    id: string,
    productName: string,
    applicantName: string,
    applicantEmail: string,
    category: string,
    district: string,
    description: string,
    documents: seq<string>,
    status: string,
    submittedAt: string,
    reviewedBy: Option<string>,
    tradeCenterRemarks: string,
    prosecutionHistory: seq<string>)

  /** A non-GI product violation report. The seeded reports carry no
      `description` key at all, hence the Option. */
  datatype Violation = Violation(
    id: string,
    productName: string,
    violatorCompany: string,
    reportedBy: string,
    violationType: string,
    evidence: seq<string>,
    description: Option<string>,
    status: string,
    reportedAt: string,
    actionTaken: string,
    associationNotified: bool,
    prosecutionStatus: string)

  /** The object passed to `submitApplication`: the form's fields, and any of
      the keys the backend itself writes that a caller might also send
      (None when the key is absent). */
  datatype ApplicationData = ApplicationData(
    productName: string,
    applicantName: string,
    applicantEmail: string,
    category: string,
    district: string,
    description: string,
    documents: seq<string>,
    id: Option<string>,
    status: Option<string>,
    submittedAt: Option<string>,
    reviewedBy: Option<string>,
    tradeCenterRemarks: Option<string>,
    prosecutionHistory: Option<seq<string>>)

  /** The object passed to `reportViolation`, in the same manner. */
  datatype ViolationData = ViolationData(
    productName: string,
    violatorCompany: string,
    violationType: string,
    evidence: seq<string>,
    description: string,
    reportedBy: string,
    id: Option<string>,
    status: Option<string>,
    reportedAt: Option<string>,
    actionTaken: Option<string>,
    associationNotified: Option<bool>,
    prosecutionStatus: Option<string>)

  /** The object passed to `createUser`, in the same manner. */
  datatype UserData = UserData(
    username: string,
    password: string,
    role: string,
    name: string,
    organization: string,
    id: Option<int>,
    status: Option<string>,
    createdAt: Option<string>)

  // ---------------------------------------------------------------------
  // Seed tables
  // ---------------------------------------------------------------------

  const SeedUsers: seq<User> := [
    User(1, "admin@gi-yatra.com", "admin123", "admin", "System Administrator",
         "GI Yatra Central", "active", "2024-01-15T00:00:00Z"),
    User(2, "udupi@association.com", "udupi123", "association", "Udupi GI Association",
         "Udupi Trade Promotion Council", "active", "2024-02-01T00:00:00Z"),
    User(3, "mysore@association.com", "mysore123", "association", "Mysore Silk Association",
         "Karnataka Silk Board", "active", "2024-02-15T00:00:00Z"),
    User(4, "officer@giboard.gov.in", "officer123", "officer", "GI Registration Officer",
         "Geographic Indications Registry", "active", "2024-01-10T00:00:00Z")
  ]

  const SeedApplications: seq<Application> := [
    Application(
      "GI001", "Udupi Mallige Premium", "Udupi Flower Growers Association",
      "udupi@association.com", "Agricultural", "Udupi",
      "Premium jasmine flowers with unique fragrance properties",
      ["certificate.pdf", "geographical-proof.pdf", "quality-standards.pdf"],
      "under_review", "2024-09-15T10:30:00Z", None,
      "Pending documentation verification", []),
    Application(
      "GI002", "Channapatna Eco Toys", "Channapatna Artisan Collective",
      "channapatna@artisans.com", "Handicraft", "Ramanagara",
      "Traditional wooden toys made with eco-friendly lacquer",
      ["artisan-certificate.pdf", "traditional-methods.pdf"],
      "approved", "2024-08-20T14:15:00Z", Some("officer@giboard.gov.in"),
      "Excellent documentation and verification completed", [])
  ]

  const SeedViolations: seq<Violation> := [
    Violation(
      "NONGI001", "Fake Mysore Silk Sarees", "QuickSilk Textiles Pvt Ltd",
      "mysore@association.com", "trademark_infringement",
      ["photos.zip", "marketplace-listing.pdf", "customer-complaints.pdf"], None,
      "prosecution_initiated", "2024-09-28T09:45:00Z", "Legal notice sent to violator",
      true, "notice_served"),
    Violation(
      "NONGI002", "Imitation Bidriware Items", "Modern Crafts Online",
      "bidar@association.com", "geographical_misuse",
      ["product-images.jpg", "website-screenshots.pdf"], None,
      "under_investigation", "2024-10-01T16:20:00Z", "Investigation assigned to field officer",
      true, "pending")
  ]
}
