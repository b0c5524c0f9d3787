/** The claim list of components/claims/claims-management.tsx: the search,
    status and adjuster filters, the status choices offered, and the lookup
    of the claim opened in the detail panel. Filters are the strings the
    selects hold, `"all"` meaning no filtering. */
module ClaimsManagement {
  import opened Seqs
  import opened Claims

  /** The string form of a claim status (the union of lib/data/claims.ts). */
  function StatusCode(s: ClaimStatus): string {
    match s
    case Queue => "queue"
    case Assigned => "assigned"
    case Contacted => "contacted"
    case Inspected => "inspected"
    case EstimateReturned => "estimate_returned"
    case CorrectionReturned => "correction_returned"
    case QaApproved => "qa_approved"
    case Reviewed => "reviewed"
    case Completed => "completed"
  }

  /** Different statuses have different codes, and none is `"all"`. */
  lemma StatusCodesDistinct(s: ClaimStatus, t: ClaimStatus)
    ensures StatusCode(s) == StatusCode(t) <==> s == t
    ensures StatusCode(s) != "all"
  {
  }

  const AllFilter: string := "all"

  /** The search term, lower-cased, occurs in the lower-cased claim number,
      policyholder name or city. */
  predicate MatchesSearch(c: Claim, search: string) {
    var term := Lower(search);
    Contains(Lower(c.claimNumber), term) || Contains(Lower(c.policyholderName), term) || Contains(Lower(c.city), term)
  }

  predicate MatchesStatus(c: Claim, statusFilter: string) {
    statusFilter == AllFilter || StatusCode(c.status) == statusFilter
  }

  /** `claim.assignedAdjusterId === adjusterFilter`: an unassigned claim
      equals no filter string. */
  predicate MatchesAdjuster(c: Claim, adjusterFilter: string) {
    adjusterFilter == AllFilter || c.assignedAdjusterId == Some(adjusterFilter)
  }

  predicate ClaimPasses(c: Claim, search: string, statusFilter: string, adjusterFilter: string) {
    MatchesSearch(c, search) && MatchesStatus(c, statusFilter) && MatchesAdjuster(c, adjusterFilter)
  }

  /** `filteredClaims`: the claims passing all three filters, in list
      order. */
  function FilteredClaims(claims: seq<Claim>, search: string, statusFilter: string, adjusterFilter: string): (r: seq<Claim>)
    ensures IsSubsequence(r, claims)
    ensures forall c :: c in r <==> c in claims && ClaimPasses(c, search, statusFilter, adjusterFilter)
  {
    Filter((c: Claim) => ClaimPasses(c, search, statusFilter, adjusterFilter), claims)
  }

  /** With an empty search and both filters at `"all"`, every claim is
      listed, in its place. */
  lemma NoFilterListsAll(claims: seq<Claim>)
    ensures FilteredClaims(claims, "", AllFilter, AllFilter) == claims
  {
    forall i | 0 <= i < |claims|
      ensures ClaimPasses(claims[i], "", AllFilter, AllFilter)
    {
      ContainsEmpty(Lower(claims[i].claimNumber));
    }
    FilterAll((c: Claim) => ClaimPasses(c, "", AllFilter, AllFilter), claims);
  }

  /** Choosing a specific adjuster hides every unassigned claim. */
  lemma SpecificAdjusterHidesUnassigned(claims: seq<Claim>, search: string, statusFilter: string, adjusterId: string)
    requires adjusterId != AllFilter
    ensures forall c :: c in FilteredClaims(claims, search, statusFilter, adjusterId) ==> c.assignedAdjusterId == Some(adjusterId)
  {
  }

  /** Replacing `"all"` by a specific status keeps only a subsequence of the
      previous list. */
  lemma NarrowingStatusShrinks(claims: seq<Claim>, search: string, statusFilter: string, adjusterFilter: string)
    ensures IsSubsequence(FilteredClaims(claims, search, statusFilter, adjusterFilter),
                          FilteredClaims(claims, search, AllFilter, adjusterFilter))
  {
    FilterStronger((c: Claim) => ClaimPasses(c, search, statusFilter, adjusterFilter),
                   (c: Claim) => ClaimPasses(c, search, AllFilter, adjusterFilter), claims);
  }

  /** Replacing `"all"` by a specific adjuster keeps only a subsequence of
      the previous list. */
  lemma NarrowingAdjusterShrinks(claims: seq<Claim>, search: string, statusFilter: string, adjusterFilter: string)
    ensures IsSubsequence(FilteredClaims(claims, search, statusFilter, adjusterFilter),
                          FilteredClaims(claims, search, statusFilter, AllFilter))
  {
    FilterStronger((c: Claim) => ClaimPasses(c, search, statusFilter, adjusterFilter),
                   (c: Claim) => ClaimPasses(c, search, statusFilter, AllFilter), claims);
  }

  datatype StatusOption = StatusOption(value: string, labelText: string)

  /** `statusOptions`. */
  const StatusOptions: seq<StatusOption> := [
    StatusOption("all", "All Status"),
    StatusOption("queue", "In Queue"),
    StatusOption("assigned", "Assigned"),
    StatusOption("contacted", "Contacted"),
    StatusOption("inspected", "Inspected"),
    StatusOption("estimate_returned", "Estimate Returned"),
    StatusOption("qa_approved", "QA Approved"),
    StatusOption("completed", "Completed")
  ]

  /** A status can be chosen in the select unless it is "correction
      returned" or "reviewed". */
  lemma StatusOptionsOmitTwo(s: ClaimStatus)
    ensures (exists i :: 0 <= i < |StatusOptions| && StatusOptions[i].value == StatusCode(s)) <==>
      s != CorrectionReturned && s != Reviewed
  {
    if s != CorrectionReturned && s != Reviewed {
      match s
      case Queue => assert StatusOptions[1].value == StatusCode(s);
      case Assigned => assert StatusOptions[2].value == StatusCode(s);
      case Contacted => assert StatusOptions[3].value == StatusCode(s);
      case Inspected => assert StatusOptions[4].value == StatusCode(s);
      case EstimateReturned => assert StatusOptions[5].value == StatusCode(s);
      case QaApproved => assert StatusOptions[6].value == StatusCode(s);
      case Completed => assert StatusOptions[7].value == StatusCode(s);
    }
  }

  /** So a claim that is "correction returned" or "reviewed" is listed under
      no status option except "all". */
  lemma OmittedStatusOnlyUnderAll(claims: seq<Claim>, c: Claim, search: string, adjusterFilter: string, i: int)
    requires c.status == CorrectionReturned || c.status == Reviewed
    requires 0 < i < |StatusOptions|
    ensures c !in FilteredClaims(claims, search, StatusOptions[i].value, adjusterFilter)
  {
    StatusOptionsOmitTwo(c.status);
  }

  /** `selectedClaimData` is `SelectedClaim` of the selection. Since the
      sample claim ids are distinct, selecting a sample claim's id opens
      exactly that claim. */
  lemma SelectingSampleClaim(k: int)
    requires 0 <= k < |SampleClaims|
    ensures SelectedClaim(SampleClaims, Some(SampleClaims[k].id)) == Some(SampleClaims[k])
  {
    SampleClaimIdsDistinct();
    SelectingUniqueId(SampleClaims, k);
  }
}
