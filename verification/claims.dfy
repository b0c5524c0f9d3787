/** The claim records and sample data of lib/data/claims.ts. Dates are
    integer milliseconds since the epoch (UTC); optional fields are
    `Option`s. */
module Claims {
  import opened Seqs
  import opened TimeStatus

  datatype ClaimStatus =
    | Queue | Assigned | Contacted | Inspected | EstimateReturned
    | CorrectionReturned | QaApproved | Reviewed | Completed

  datatype Priority = High | Medium | Low

  datatype Claim = Claim(
    id: string,
    claimNumber: string,
    xactAnalysisId: string,
    dateEnteredQueue: int,
    dateOfLoss: int,
    policyholderName: string,
    policyholderPhone: string,
    policyholderEmail: string,
    propertyAddress: string,
    city: string,
    county: string,
    zipCode: string,
    state: string,
    claimAmount: int,
    assignedAdjusterId: Option<string>,
    assignedAdjusterName: Option<string>,
    status: ClaimStatus,
    customerContactedAt: Option<int>,
    siteInspectedAt: Option<int>,
    estimateReturnedAt: Option<int>,
    correctionReturnedAt: Option<int>,
    qaApprovedAt: Option<int>,
    reviewedAt: Option<int>,
    createdAt: int,
    updatedAt: int,
    firstContactDeadline: int,
    priority: Priority)

  datatype KpiEventType = FirstContact | Inspection | Estimate | QaReview

  datatype KpiEvent = KpiEvent(
    id: string,
    claimId: string,
    eventType: KpiEventType,
    status: Light,
    targetTime: int,
    actualTime: Option<int>,
    durationHours: Option<real>,
    isCompliant: bool,
    notes: Option<string>,
    createdAt: int)

  datatype Adjuster = Adjuster(id: string, name: string, currentWorkload: int, maxWorkload: int, specialties: seq<string>)

  /** The first-contact window: 24 hours. */
  const ContactWindowMs: int := 24 * HourMs

  const Claim1: Claim := Claim("1", "FL-2025-001234", "XA-001234", 1_736_496_000_000, 1_736_294_400_000,
    "John Smith", "(555) 123-4567", "john.smith@email.com", "123 Main St", "Miami", "Miami-Dade", "33101", "FL",
    15000, Some("adj1"), Some("Sarah Johnson"), Contacted,
    Some(1_736_519_400_000), None, None, None, None, None,
    1_736_496_000_000, 1_736_519_400_000, 1_736_582_400_000, High)

  const Claim2: Claim := Claim("2", "FL-2025-001235", "XA-001235", 1_736_504_100_000, 1_736_380_800_000,
    "Maria Garcia", "(555) 987-6543", "maria.garcia@email.com", "456 Oak Ave", "Tampa", "Hillsborough", "33602", "FL",
    25000, Some("adj2"), Some("Mike Rodriguez"), Inspected,
    Some(1_736_523_900_000), Some(1_736_587_800_000), None, None, None, None,
    1_736_504_100_000, 1_736_587_800_000, 1_736_590_500_000, Medium)

  const Claim3: Claim := Claim("3", "FL-2025-001236", "XA-001236", 1_736_586_000_000, 1_736_467_200_000,
    "Robert Wilson", "(555) 456-7890", "robert.wilson@email.com", "789 Pine St", "Orlando", "Orange", "32801", "FL",
    8500, Some("adj1"), Some("Sarah Johnson"), Assigned,
    None, None, None, None, None, None,
    1_736_586_000_000, 1_736_586_000_000, 1_736_672_400_000, Low)

  const Claim4: Claim := Claim("4", "FL-2025-001237", "XA-001237", 1_736_605_800_000, 1_736_553_600_000,
    "Jennifer Davis", "(555) 321-0987", "jennifer.davis@email.com", "321 Elm Dr", "Jacksonville", "Duval", "32202", "FL",
    32000, None, None, Queue,
    None, None, None, None, None, None,
    1_736_605_800_000, 1_736_605_800_000, 1_736_692_200_000, High)

  const Claim5: Claim := Claim("5", "FL-2025-001238", "XA-001238", 1_736_441_100_000, 1_736_208_000_000,
    "David Thompson", "(555) 654-3210", "david.thompson@email.com", "654 Maple Ln", "Fort Lauderdale", "Broward", "33301", "FL",
    19500, Some("adj3"), Some("Lisa Chen"), QaApproved,
    Some(1_736_496_900_000), Some(1_736_515_200_000), Some(1_736_592_300_000), None, Some(1_736_613_000_000), None,
    1_736_441_100_000, 1_736_613_000_000, 1_736_527_500_000, Medium)

  /** `sampleClaims`. */
  const SampleClaims: seq<Claim> := [Claim1, Claim2, Claim3, Claim4, Claim5]

  /** `sampleKPIEvents`; 6.5 and 5.5 hours are exact in binary, so `real`
      loses nothing. */
  const SampleKpiEvents: seq<KpiEvent> := [
    KpiEvent("kpi1", "1", FirstContact, Green, 1_736_582_400_000, Some(1_736_519_400_000), Some(6.5), true,
      Some("Customer contacted successfully within deadline"), 1_736_519_400_000),
    KpiEvent("kpi2", "2", FirstContact, Green, 1_736_590_500_000, Some(1_736_523_900_000), Some(5.5), true,
      None, 1_736_523_900_000),
    KpiEvent("kpi3", "3", FirstContact, Yellow, 1_736_672_400_000, None, Some(0.0), false,
      Some("Approaching 24-hour deadline"), 1_736_586_000_000),
    KpiEvent("kpi4", "4", FirstContact, Green, 1_736_692_200_000, None, Some(0.0), true,
      Some("Recently entered queue"), 1_736_605_800_000)
  ]

  /** `adjusters`. */
  const Adjusters: seq<Adjuster> := [
    Adjuster("adj1", "Sarah Johnson", 8, 20, ["Wind", "Hail", "Water"]),
    Adjuster("adj2", "Mike Rodriguez", 12, 20, ["Fire", "Theft", "Vandalism"]),
    Adjuster("adj3", "Lisa Chen", 6, 20, ["Water", "Mold", "Structural"]),
    Adjuster("adj4", "James Wilson", 15, 20, ["Wind", "Hail"]),
    Adjuster("adj5", "Emma Davis", 4, 20, ["Liability", "Personal Property"])
  ]

  /** `a` happened no later than `b`, and `b` only happened if `a` did. */
  predicate Precedes(a: Option<int>, b: Option<int>) {
    b.Some? ==> a.Some? && a.value <= b.value
  }

  /** Contact, inspection, estimate and QA approval happen in that order. */
  predicate LifecycleOrdered(c: Claim) {
    && Precedes(c.customerContactedAt, c.siteInspectedAt)
    && Precedes(c.siteInspectedAt, c.estimateReturnedAt)
    && Precedes(c.estimateReturnedAt, c.qaApprovedAt)
  }

  function LaterOf(t: int, o: Option<int>): (r: int)
    ensures r >= t && (o.Some? ==> r >= o.value)
    ensures r == t || (o.Some? && r == o.value)
  {
    if o.Some? && o.value > t then o.value else t
  }

  /** The latest of the creation time and the lifecycle times present. */
  function LatestStamp(c: Claim): int {
    LaterOf(LaterOf(LaterOf(LaterOf(LaterOf(LaterOf(c.createdAt,
      c.customerContactedAt), c.siteInspectedAt), c.estimateReturnedAt),
      c.correctionReturnedAt), c.qaApprovedAt), c.reviewedAt)
  }

  /** The facts every sample claim satisfies: the deadline is 24 hours after
      queue entry, the loss precedes queue entry, the lifecycle times are
      ordered and no earlier than queue entry, creation is queue entry, the
      last update is the latest lifecycle time, and a claim in the queue has
      no adjuster while the others have both an adjuster id and a name. */
  predicate WellFormedClaim(c: Claim) {
    && c.firstContactDeadline == c.dateEnteredQueue + ContactWindowMs
    && c.dateOfLoss <= c.dateEnteredQueue
    && LifecycleOrdered(c)
    && (c.customerContactedAt.Some? ==> c.dateEnteredQueue <= c.customerContactedAt.value)
    && c.createdAt == c.dateEnteredQueue
    && c.updatedAt == LatestStamp(c)
    && (c.assignedAdjusterId.None? <==> c.assignedAdjusterName.None?)
    && (c.status == Queue <==> c.assignedAdjusterId.None?)
  }

  /** An assigned claim's adjuster name is the one listed for its id. */
  predicate AdjusterNameListed(c: Claim, adjusters: seq<Adjuster>) {
    c.assignedAdjusterId.Some? ==>
      exists a :: a in adjusters && a.id == c.assignedAdjusterId.value && Some(a.name) == c.assignedAdjusterName
  }

  /** A first-contact event agrees with its claim: the target is the
      claim's deadline; a recorded contact is the claim's contact time, is on
      time and compliant, and its duration is the hours from queue entry to
      contact; an event without contact has duration 0. */
  predicate KpiMatchesClaim(e: KpiEvent, c: Claim) {
    && e.claimId == c.id
    && e.eventType == FirstContact
    && e.targetTime == c.firstContactDeadline
    && (e.actualTime.Some? ==>
          && e.actualTime == c.customerContactedAt
          && e.actualTime.value <= e.targetTime
          && e.isCompliant
          && e.durationHours.Some?
          && e.durationHours.value * (HourMs as real) == (e.actualTime.value - c.dateEnteredQueue) as real)
    && (e.actualTime.None? ==> e.durationHours == Some(0.0))
  }

  /** The selected claim, as both the workflow manager and the claims page
      compute it: nothing when the selected id is null or "", otherwise the
      first claim with that id, or nothing when there is none. */
  function SelectedClaim(claims: seq<Claim>, selected: Option<string>): (r: Option<Claim>)
    ensures !IsTruthy(selected) ==> r.None?
    ensures IsTruthy(selected) ==>
      (r.None? <==> forall c :: c in claims ==> c.id != selected.value)
    ensures r.Some? ==>
      exists k :: && 0 <= k < |claims| && claims[k] == r.value && claims[k].id == selected.value
                  && forall j :: 0 <= j < k ==> claims[j].id != selected.value
  {
    if IsTruthy(selected) then Find((c: Claim) => c.id == selected.value, claims) else None
  }

  /** With distinct ids, selecting a claim's non-empty id opens exactly that
      claim. */
  lemma SelectingUniqueId(claims: seq<Claim>, k: int)
    requires 0 <= k < |claims| && claims[k].id != ""
    requires forall i, j :: 0 <= i < j < |claims| ==> claims[i].id != claims[j].id
    ensures SelectedClaim(claims, Some(claims[k].id)) == Some(claims[k])
  {
    var r := SelectedClaim(claims, Some(claims[k].id));
    assert IsTruthy(Some(claims[k].id));
    assert claims[k] in claims;
    var k' :| && 0 <= k' < |claims| && claims[k'] == r.value && claims[k'].id == claims[k].id
              && forall j :: 0 <= j < k' ==> claims[j].id != claims[k].id;
    assert k' == k;
  }

  lemma Claim1WellFormed()
    ensures WellFormedClaim(Claim1) && AdjusterNameListed(Claim1, Adjusters)
  {
    assert Adjusters[0].id == "adj1";
  }

  lemma Claim2WellFormed()
    ensures WellFormedClaim(Claim2) && AdjusterNameListed(Claim2, Adjusters)
  {
    assert Adjusters[1].id == "adj2";
  }

  lemma Claim3WellFormed()
    ensures WellFormedClaim(Claim3) && AdjusterNameListed(Claim3, Adjusters)
  {
    assert Adjusters[0].id == "adj1";
  }

  lemma Claim4WellFormed()
    ensures WellFormedClaim(Claim4) && AdjusterNameListed(Claim4, Adjusters)
  {
  }

  lemma Claim5WellFormed()
    ensures WellFormedClaim(Claim5) && AdjusterNameListed(Claim5, Adjusters)
  {
    assert Adjusters[2].id == "adj3";
  }

  /** Every sample claim is well formed and has a listed adjuster. */
  lemma SampleClaimsWellFormed()
    ensures forall c :: c in SampleClaims ==> WellFormedClaim(c) && AdjusterNameListed(c, Adjusters)
  {
    Claim1WellFormed();
    Claim2WellFormed();
    Claim3WellFormed();
    Claim4WellFormed();
    Claim5WellFormed();
  }

  /** The sample claim ids are distinct. */
  lemma SampleClaimIdsDistinct()
    ensures forall i, j :: 0 <= i < j < |SampleClaims| ==> SampleClaims[i].id != SampleClaims[j].id
  {
  }

  /** No adjuster is over capacity. */
  lemma AdjustersWithinCapacity()
    ensures forall a :: a in Adjusters ==> 0 <= a.currentWorkload <= a.maxWorkload
  {
  }

  /** Every sample KPI event belongs to a sample claim and agrees with it;
      an event with a contact time carries the light `getTimeStatus` gives
      it, whatever the clock says. */
  lemma SampleKpiEventsMatchClaims()
    ensures forall e :: e in SampleKpiEvents ==>
      exists c :: c in SampleClaims && KpiMatchesClaim(e, c)
    ensures forall e, now :: e in SampleKpiEvents && e.actualTime.Some? ==>
      e.status == GetTimeStatus(e.targetTime, e.actualTime, now)
  {
    var es := SampleKpiEvents;
    assert KpiMatchesClaim(es[0], Claim1);
    assert KpiMatchesClaim(es[1], Claim2);
    assert KpiMatchesClaim(es[2], Claim3);
    assert KpiMatchesClaim(es[3], Claim4);
    assert SampleClaims[0] == Claim1 && SampleClaims[1] == Claim2 && SampleClaims[2] == Claim3 && SampleClaims[3] == Claim4;
  }
}
