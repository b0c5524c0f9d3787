/** The aggregates of components/dashboard/manager-dashboard.tsx: status
    counts, first-contact compliance, overdue and approaching-deadline
    counts, the compliance and workload colours, and the five most recent
    claims. Percentages are exact `real`s; `now` is a parameter. The source
    compares floating-point hours `ms / 3,600,000` with 24 and 4. When the
    millisecond difference is below 2^53 in magnitude it is an exact double,
    24 and 4 hours are exact quotients, and a whole millisecond more moves
    the quotient by far more than half a unit in the last place near them,
    so the float comparisons equal the millisecond comparisons used here. */
module ManagerDashboard {
  import opened Seqs
  import opened TimeStatus
  import opened Claims
  import Sorting
  import ClaimsManagement

  predicate InQueue(c: Claim) {
    c.status == Queue
  }

  predicate InProgress(c: Claim) {
    c.status != Queue && c.status != Completed
  }

  predicate IsCompleted(c: Claim) {
    c.status == Completed
  }

  /** Uncontacted and more than 24 hours in the queue. */
  predicate IsOverdue(c: Claim, now: int) {
    c.customerContactedAt.None? && now - c.dateEnteredQueue > ContactWindowMs
  }

  /** Uncontacted and at most four hours, but more than none, left before
      the first-contact deadline. */
  predicate IsApproaching(c: Claim, now: int) {
    c.customerContactedAt.None? && 0 < c.firstContactDeadline - now <= WarningMs
  }

  function CountIf(p: Claim -> bool, claims: seq<Claim>): (n: nat)
    ensures n <= |claims|
  {
    |Filter(p, claims)|
  }

  datatype DashboardStats = DashboardStats(
    totalClaims: nat,
    claimsInQueue: nat,
    claimsAssigned: nat,
    claimsCompleted: nat,
    complianceRate: real,
    overdueClaims: nat,
    approachingDeadline: nat)

  /** `part / whole * 100`, with 0 for an empty whole. */
  function Percent(part: nat, whole: nat): (r: real)
    requires part <= whole
    ensures 0.0 <= r <= 100.0
    ensures whole == 0 || part == 0 ==> r == 0.0
    ensures 0 < whole && part == whole ==> r == 100.0
  {
    if whole > 0 then
      PercentBound(part, whole);
      (part as real / whole as real) * 100.0
    else 0.0
  }

  lemma PercentBound(part: nat, whole: nat)
    requires 0 < whole && part <= whole
    ensures 0.0 <= (part as real / whole as real) * 100.0 <= 100.0
  {
    var q := part as real / whole as real;
    assert q * (whole as real) == part as real;
    assert q <= 1.0;
  }

  function FirstContactEvents(events: seq<KpiEvent>): (r: seq<KpiEvent>)
    ensures forall e :: e in r <==> e in events && e.eventType == FirstContact
  {
    Filter((e: KpiEvent) => e.eventType == FirstContact, events)
  }

  function CompliantEvents(events: seq<KpiEvent>): (r: seq<KpiEvent>)
    ensures |r| <= |events|
    ensures forall e :: e in r <==> e in events && e.isCompliant
  {
    Filter((e: KpiEvent) => e.isCompliant, events)
  }

  /** The share of first-contact events that are compliant, as a
      percentage; 0 when there is no such event. */
  function ComplianceRate(events: seq<KpiEvent>): (rate: real)
    ensures 0.0 <= rate <= 100.0
  {
    var firstContact := FirstContactEvents(events);
    Percent(|CompliantEvents(firstContact)|, |firstContact|)
  }

  /** The rate is 0 without first-contact events and when none is
      compliant, and 100 when there are some and all are compliant. */
  lemma ComplianceRateExtremes(events: seq<KpiEvent>)
    ensures (forall e :: e in events ==> e.eventType != FirstContact) ==> ComplianceRate(events) == 0.0
    ensures (forall e :: e in events && e.eventType == FirstContact ==> !e.isCompliant) ==> ComplianceRate(events) == 0.0
    ensures (exists e :: e in events && e.eventType == FirstContact) &&
            (forall e :: e in events && e.eventType == FirstContact ==> e.isCompliant) ==>
            ComplianceRate(events) == 100.0
  {
    var firstContact := FirstContactEvents(events);
    var isCompliant := (e: KpiEvent) => e.isCompliant;
    FilterAll(isCompliant, firstContact);
    FilterEmpty(isCompliant, firstContact);
    if exists e :: e in events && e.eventType == FirstContact {
      var e :| e in events && e.eventType == FirstContact;
      assert e in firstContact;
    }
    if |firstContact| > 0 {
      assert firstContact[0] in firstContact;
    }
  }

  /** `dashboardStats`. */
  function Stats(claims: seq<Claim>, events: seq<KpiEvent>, now: int): (s: DashboardStats)
    ensures s.totalClaims == |claims|
    ensures s.claimsInQueue + s.claimsAssigned + s.claimsCompleted == s.totalClaims
    ensures s.overdueClaims <= s.totalClaims && s.approachingDeadline <= s.totalClaims
    ensures 0.0 <= s.complianceRate <= 100.0
  {
    FilterPartition(InQueue, InProgress, IsCompleted, claims);
    DashboardStats(
      |claims|,
      CountIf(InQueue, claims),
      CountIf(InProgress, claims),
      CountIf(IsCompleted, claims),
      ComplianceRate(events),
      CountIf((c: Claim) => IsOverdue(c, now), claims),
      CountIf((c: Claim) => IsApproaching(c, now), claims))
  }

  /** A claim whose deadline is 24 hours after queue entry is never counted
      both as overdue and as approaching its deadline. */
  lemma OverdueExcludesApproaching(c: Claim, now: int)
    requires c.firstContactDeadline == c.dateEnteredQueue + ContactWindowMs
    ensures !(IsOverdue(c, now) && IsApproaching(c, now))
  {
  }

  /** For such a claim the counts agree with the deadline light: an
      uncontacted claim approaches its deadline exactly when its light is
      yellow, and an overdue claim's light is red. */
  lemma CountsAgreeWithLight(c: Claim, now: int)
    requires c.firstContactDeadline == c.dateEnteredQueue + ContactWindowMs
    requires c.customerContactedAt.None?
    ensures IsApproaching(c, now) <==> GetTimeStatus(c.firstContactDeadline, None, now) == Yellow
    ensures IsOverdue(c, now) ==> GetTimeStatus(c.firstContactDeadline, None, now) == Red
  {
  }

  /** So the two counts together never exceed the number of claims. */
  lemma OverdueAndApproachingFit(claims: seq<Claim>, events: seq<KpiEvent>, now: int)
    requires forall c :: c in claims ==> c.firstContactDeadline == c.dateEnteredQueue + ContactWindowMs
    ensures Stats(claims, events, now).overdueClaims + Stats(claims, events, now).approachingDeadline <= |claims|
  {
    var over := (c: Claim) => IsOverdue(c, now);
    var near := (c: Claim) => IsApproaching(c, now);
    forall c | c in claims
      ensures !(over(c) && near(c))
    {
      OverdueExcludesApproaching(c, now);
    }
    PartitionWithin(over, near, claims);
  }

  /** Two tests that no element of `s` passes together select at most
      `|s|` elements between them. */
  lemma {:induction false} PartitionWithin(p: Claim -> bool, q: Claim -> bool, s: seq<Claim>)
    requires forall c :: c in s ==> !(p(c) && q(c))
    ensures |Filter(p, s)| + |Filter(q, s)| <= |s|
  {
    if |s| > 0 {
      assert forall c :: c in s[1..] ==> c in s;
      PartitionWithin(p, q, s[1..]);
    }
  }

  /** The compliance badge: green from 95%, yellow from 80%, red below. */
  function ComplianceColor(rate: real): (l: Light)
    ensures l == Green <==> rate >= 95.0
    ensures l == Yellow <==> 80.0 <= rate < 95.0
    ensures l == Red <==> rate < 80.0
  {
    if rate >= 95.0 then Green else if rate >= 80.0 then Yellow else Red
  }

  /** A higher compliance rate never shows a worse colour. */
  lemma ComplianceColorMonotone(r1: real, r2: real)
    requires r1 <= r2
    ensures Severity(ComplianceColor(r2)) <= Severity(ComplianceColor(r1))
  {
  }

  /** For a positive maximum, comparing the percentage with a threshold is
      comparing the cross products. */
  lemma PercentAtLeast(current: int, max: int, k: int)
    ensures max > 0 ==> ((current as real / max as real) * 100.0 >= k as real <==> 100 * current >= k * max)
  {
    if max > 0 {
      var q := current as real / max as real;
      var m := max as real;
      assert q * m == current as real;
      assert (q * 100.0) * m == 100.0 * (current as real);
      assert q * 100.0 >= k as real <==> (q * 100.0) * m >= (k as real) * m;
    }
  }

  /** The workload colour of an adjuster: the percentage
      `current / max * 100` is red from 90, yellow from 70, green below.
      With a zero maximum the division gives Infinity (red) for a positive
      load and NaN (green, since every comparison with NaN fails) for a zero
      load. */
  function WorkloadStatus(current: int, max: int): (l: Light)
    ensures max > 0 ==> (l == Red <==> 100 * current >= 90 * max)
    ensures max > 0 ==> (l == Yellow <==> 70 * max <= 100 * current < 90 * max)
    ensures max > 0 ==> (l == Green <==> 100 * current < 70 * max)
    ensures max == 0 ==> (l == Red <==> current > 0)
    ensures max == 0 ==> l != Yellow
  {
    if max == 0 then
      if current > 0 then Red else Green
    else
      var pct := (current as real / max as real) * 100.0;
      PercentAtLeast(current, max, 90);
      PercentAtLeast(current, max, 70);
      if pct >= 90.0 then Red else if pct >= 70.0 then Yellow else Green
  }

  /** Within capacity, more load never shows a better colour. */
  lemma WorkloadStatusMonotone(c1: int, c2: int, max: int)
    requires max > 0 && c1 <= c2
    ensures Severity(WorkloadStatus(c1, max)) <= Severity(WorkloadStatus(c2, max))
  {
  }

  lemma SampleQueueCount()
    ensures CountIf(InQueue, SampleClaims) == 1
  {
    var cs := SampleClaims;
    FilterCountAt(InQueue, cs, 0);
    FilterCountAt(InQueue, cs, 1);
    FilterCountAt(InQueue, cs, 2);
    FilterCountAt(InQueue, cs, 3);
    FilterCountAt(InQueue, cs, 4);
    assert cs[0..] == cs;
  }

  /** The sample claims: one in the queue, four in progress, none
      completed. */
  lemma SampleStatusCounts()
    ensures CountIf(InQueue, SampleClaims) == 1
    ensures CountIf(InProgress, SampleClaims) == 4
    ensures CountIf(IsCompleted, SampleClaims) == 0
  {
    SampleQueueCount();
    FilterEmpty(IsCompleted, SampleClaims);
    FilterPartition(InQueue, InProgress, IsCompleted, SampleClaims);
  }

  lemma SampleCompliantCount()
    ensures FirstContactEvents(SampleKpiEvents) == SampleKpiEvents
    ensures |CompliantEvents(SampleKpiEvents)| == 3
  {
    var es := SampleKpiEvents;
    FilterAll((e: KpiEvent) => e.eventType == FirstContact, es);
    var compliant := (e: KpiEvent) => e.isCompliant;
    FilterCountAt(compliant, es, 0);
    FilterCountAt(compliant, es, 1);
    FilterCountAt(compliant, es, 2);
    FilterCountAt(compliant, es, 3);
    assert es[0..] == es;
  }

  /** Three of the four sample first-contact events are compliant: 75%,
      which shows red. */
  lemma SampleCompliance()
    ensures ComplianceRate(SampleKpiEvents) == 75.0
    ensures ComplianceColor(ComplianceRate(SampleKpiEvents)) == Red
  {
    SampleCompliantCount();
  }

  /** Only James Wilson (15 of 20) shows a yellow workload; every other
      sample adjuster is green. */
  lemma SampleWorkloads()
    ensures forall i :: 0 <= i < |Adjusters| ==>
      WorkloadStatus(Adjusters[i].currentWorkload, Adjusters[i].maxWorkload) == (if i == 3 then Yellow else Green)
  {
  }

  /** "`a` may stay in front of `b`" for `b.dateEnteredQueue -
      a.dateEnteredQueue`: newest first. */
  predicate NewerFirst(a: Claim, b: Claim) {
    b.dateEnteredQueue - a.dateEnteredQueue <= 0
  }

  lemma NewerFirstIsPreorder()
    ensures Sorting.TotalPreorder(NewerFirst)
  {
  }

  /** `recentClaims` as written: `sampleClaims.sort(...)` sorts the shared
      claim list itself and returns it, and `slice(0, 5)` copies the front.
      The result is the recent list together with the shared list as the
      sort leaves it. */
  function RecentClaimsAsWritten(shared: seq<Claim>): (r: (seq<Claim>, seq<Claim>))
    ensures multiset(r.1) == multiset(shared)
    ensures |r.1| == |shared|
    ensures r.0 == r.1[..Min(5, |shared|)]
  {
    var sorted := Sorting.Sort(shared, NewerFirst);
    (sorted[..Min(5, |shared|)], sorted)
  }

  /** On the sample claims the dashboard reorders the shared list: claim 1
      entered the queue before claim 2 but is listed first, so the sorted
      list differs, and the claims page, which filters the same list,
      afterwards shows the claims in a different order. */
  lemma DashboardReordersSharedClaims()
    ensures RecentClaimsAsWritten(SampleClaims).1 != SampleClaims
    ensures ClaimsManagement.FilteredClaims(RecentClaimsAsWritten(SampleClaims).1, "", "all", "all") !=
            ClaimsManagement.FilteredClaims(SampleClaims, "", "all", "all")
  {
    NewerFirstIsPreorder();
    Sorting.SortSorted(SampleClaims, NewerFirst);
    assert !NewerFirst(SampleClaims[0], SampleClaims[1]);
    ClaimsManagement.NoFilterListsAll(SampleClaims);
    ClaimsManagement.NoFilterListsAll(RecentClaimsAsWritten(SampleClaims).1);
  }

  /** The five most recent claims, newest first, taken from a sorted copy so
      that the claim list itself is left as it is. */
  function RecentClaims(claims: seq<Claim>): (r: seq<Claim>)
    ensures |r| == Min(5, |claims|)
    ensures forall i, j :: 0 <= i < j < |r| ==> r[i].dateEnteredQueue >= r[j].dateEnteredQueue
  {
    NewerFirstIsPreorder();
    Sorting.SortSorted(claims, NewerFirst);
    Sorting.Sort(claims, NewerFirst)[..Min(5, |claims|)]
  }

  /** The recent list takes its claims from the list, and no claim left out
      entered the queue later than one listed. */
  lemma RecentClaimsAreNewest(claims: seq<Claim>)
    ensures multiset(RecentClaims(claims)) <= multiset(claims)
    ensures forall c, k ::
      (0 <= k < |RecentClaims(claims)| && multiset(RecentClaims(claims))[c] < multiset(claims)[c]) ==>
      c.dateEnteredQueue <= RecentClaims(claims)[k].dateEnteredQueue
  {
    var sorted := Sorting.Sort(claims, NewerFirst);
    var n := Min(5, |claims|);
    NewerFirstIsPreorder();
    Sorting.SortSorted(claims, NewerFirst);
    assert sorted == sorted[..n] + sorted[n..];
    assert multiset(sorted) == multiset(sorted[..n]) + multiset(sorted[n..]);
    forall c, k | 0 <= k < n && multiset(sorted[..n])[c] < multiset(claims)[c]
      ensures c.dateEnteredQueue <= sorted[..n][k].dateEnteredQueue
    {
      assert c in multiset(sorted[n..]);
      assert c in sorted[n..];
      var j :| n <= j < |sorted| && sorted[j] == c;
      assert NewerFirst(sorted[k], sorted[j]);
    }
  }

  /** The corrected list shows the same claims as the as-written one. This
      holds by construction: both take the first five of the same stable
      sort, and the fix changes only whether the shared list is reordered. */
  lemma RecentClaimsMatchAsWritten(claims: seq<Claim>)
    ensures RecentClaims(claims) == RecentClaimsAsWritten(claims).0
  {
  }
}
