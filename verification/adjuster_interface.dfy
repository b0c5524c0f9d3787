/** The task list of components/adjusters/adjuster-interface.tsx: the
    claims of the selected adjuster, the tasks their lifecycle times call
    for, the order the list is shown in, the badge colour of a task and the
    priority panel. `now` stands for every `new Date()` of one render. */
module AdjusterInterface {
  import opened Seqs
  import opened TimeStatus
  import opened Claims
  import Sorting

  /** One day; `setDate(getDate() + n)` is taken as n such days. */
  const DayMs: int := 86_400_000

  datatype TaskKind = Contact | Inspect | Estimate | Followup

  datatype TaskStatus = Pending | InProgress | Completed | Overdue

  datatype Task = Task(
    id: string,
    claimId: string,
    claimNumber: string,
    kind: TaskKind,
    priority: Priority,
    dueDate: int,
    status: TaskStatus,
    description: string,
    location: Option<string>,
    customer: string)

  /** `adjusterClaims`: the claims assigned to the adjuster, in list
      order. */
  function AdjusterClaims(claims: seq<Claim>, adjusterId: string): (r: seq<Claim>)
    ensures IsSubsequence(r, claims)
    ensures forall c :: c in r <==> c in claims && c.assignedAdjusterId == Some(adjusterId)
  {
    Filter((c: Claim) => c.assignedAdjusterId == Some(adjusterId), claims)
  }

  /** Overdue once the clock is strictly past the due date. */
  function StatusAt(due: int, now: int): (s: TaskStatus)
    ensures s == Overdue <==> now > due
    ensures s == Pending <==> now <= due
  {
    if now > due then Overdue else Pending
  }

  /** A task of the claim, with the claim's priority, due at `due` and
      overdue exactly when the clock is past that. */
  predicate TaskOf(t: Task, c: Claim, kind: TaskKind, due: int, now: int) {
    && t.claimId == c.id && t.priority == c.priority && t.kind == kind && t.dueDate == due
    && (t.status == Overdue <==> now > due) && (t.status == Overdue || t.status == Pending)
  }

  function ContactTasks(c: Claim, now: int): (r: seq<Task>)
    ensures |r| == if c.customerContactedAt.None? then 1 else 0
    ensures forall t :: t in r ==> TaskOf(t, c, Contact, c.firstContactDeadline, now)
  {
    if c.customerContactedAt.None? then
      [Task("contact_" + c.id, c.id, c.claimNumber, Contact, c.priority, c.firstContactDeadline,
            StatusAt(c.firstContactDeadline, now), "Make initial customer contact within 24 hours",
            Some(c.city + ", " + c.state), c.policyholderName)]
    else []
  }

  function InspectTasks(c: Claim, now: int): (r: seq<Task>)
    ensures |r| == if c.customerContactedAt.Some? && c.siteInspectedAt.None? then 1 else 0
    ensures forall t :: t in r ==> c.customerContactedAt.Some? && TaskOf(t, c, Inspect, c.customerContactedAt.value + 2 * DayMs, now)
  {
    if c.customerContactedAt.Some? && c.siteInspectedAt.None? then
      var due := c.customerContactedAt.value + 2 * DayMs;
      [Task("inspect_" + c.id, c.id, c.claimNumber, Inspect, c.priority, due, StatusAt(due, now),
            "Conduct property inspection", Some(c.propertyAddress), c.policyholderName)]
    else []
  }

  function EstimateTasks(c: Claim, now: int): (r: seq<Task>)
    ensures |r| == if c.siteInspectedAt.Some? && c.estimateReturnedAt.None? then 1 else 0
    ensures forall t :: t in r ==> c.siteInspectedAt.Some? && TaskOf(t, c, TaskKind.Estimate, c.siteInspectedAt.value + 3 * DayMs, now)
  {
    if c.siteInspectedAt.Some? && c.estimateReturnedAt.None? then
      var due := c.siteInspectedAt.value + 3 * DayMs;
      [Task("estimate_" + c.id, c.id, c.claimNumber, TaskKind.Estimate, c.priority, due, StatusAt(due, now),
            "Complete damage estimate and submit", None, c.policyholderName)]
    else []
  }

  /** The tasks one claim contributes: contact while uncontacted (due at the
      first-contact deadline), inspection while contacted but not inspected
      (due two days after contact), estimate while inspected but without an
      estimate (due three days after inspection). Each is overdue exactly
      when the clock is past its due date and pending otherwise. */
  function ClaimTasks(c: Claim, now: int): (r: seq<Task>)
    ensures |r| <= 3
    ensures (exists t :: t in r && t.kind == Contact) <==> c.customerContactedAt.None?
    ensures (exists t :: t in r && t.kind == Inspect) <==> c.customerContactedAt.Some? && c.siteInspectedAt.None?
    ensures (exists t :: t in r && t.kind == TaskKind.Estimate) <==> c.siteInspectedAt.Some? && c.estimateReturnedAt.None?
    ensures forall t :: t in r ==>
      || TaskOf(t, c, Contact, c.firstContactDeadline, now)
      || (c.customerContactedAt.Some? && TaskOf(t, c, Inspect, c.customerContactedAt.value + 2 * DayMs, now))
      || (c.siteInspectedAt.Some? && TaskOf(t, c, TaskKind.Estimate, c.siteInspectedAt.value + 3 * DayMs, now))
  {
    var a, b, e := ContactTasks(c, now), InspectTasks(c, now), EstimateTasks(c, now);
    assert forall t :: t in a + b + e <==> t in a || t in b || t in e;
    assert |a| > 0 ==> a[0] in a + b + e;
    assert |b| > 0 ==> b[0] in a + b + e;
    assert |e| > 0 ==> e[0] in a + b + e;
    a + b + e
  }

  /** A claim whose inspection is recorded only after its contact asks for
      at most one task at a time. */
  lemma OrderedClaimHasOneTask(c: Claim, now: int)
    requires Precedes(c.customerContactedAt, c.siteInspectedAt)
    ensures |ClaimTasks(c, now)| <= 1
  {
  }

  /** So does every sample claim. */
  lemma SampleClaimsHaveOneTask(now: int)
    ensures forall c :: c in SampleClaims ==> |ClaimTasks(c, now)| <= 1
  {
    SampleClaimsWellFormed();
  }

  /** The tasks of the claims in list order (the `forEach` that pushes into
      `taskList`). */
  function AllClaimTasks(claims: seq<Claim>, now: int): (r: seq<Task>)
    ensures forall t :: t in r <==> exists c :: c in claims && t in ClaimTasks(c, now)
  {
    if |claims| == 0 then []
    else
      var rest := AllClaimTasks(claims[1..], now);
      assert forall c :: c in claims <==> c == claims[0] || c in claims[1..];
      ClaimTasks(claims[0], now) + rest
  }

  /** `priorityOrder`. */
  function PriorityRank(p: Priority): int {
    match p
    case High => 0
    case Medium => 1
    case Low => 2
  }

  /** `statusOrder`. */
  function StatusRank(s: TaskStatus): int {
    match s
    case Overdue => 0
    case Pending => 1
    case InProgress => 2
    case Completed => 3
  }

  /** The comparator of the task sort, as "`a` may stay in front of `b`":
      by status, then by priority, then by due date. */
  predicate TaskLeq(a: Task, b: Task) {
    if a.status != b.status then StatusRank(a.status) - StatusRank(b.status) <= 0
    else if a.priority != b.priority then PriorityRank(a.priority) - PriorityRank(b.priority) <= 0
    else a.dueDate - b.dueDate <= 0
  }

  /** The comparator is consistent, so the sort's result is ordered by it. */
  lemma TaskLeqIsPreorder()
    ensures Sorting.TotalPreorder(TaskLeq)
  {
  }

  /** The `tasks` memo: the tasks of the selected adjuster's claims,
      sorted. */
  function Tasks(claims: seq<Claim>, adjusterId: string, now: int): (r: seq<Task>)
    ensures multiset(r) == multiset(AllClaimTasks(AdjusterClaims(claims, adjusterId), now))
    ensures forall t :: t in r <==> exists c :: c in claims && c.assignedAdjusterId == Some(adjusterId) && t in ClaimTasks(c, now)
  {
    var generated := AllClaimTasks(AdjusterClaims(claims, adjusterId), now);
    var r := Sorting.Sort(generated, TaskLeq);
    assert forall t :: t in r <==> t in multiset(r);
    assert forall t :: t in generated <==> t in multiset(generated);
    r
  }

  /** The task list is ordered: overdue before pending, then high before
      medium before low, then earlier due dates first. */
  lemma TasksOrdered(claims: seq<Claim>, adjusterId: string, now: int)
    ensures var r := Tasks(claims, adjusterId, now);
      forall i, j :: 0 <= i < j < |r| ==>
        && StatusRank(r[i].status) <= StatusRank(r[j].status)
        && (r[i].status == r[j].status ==> PriorityRank(r[i].priority) <= PriorityRank(r[j].priority))
        && (r[i].status == r[j].status && r[i].priority == r[j].priority ==> r[i].dueDate <= r[j].dueDate)
  {
    TaskLeqIsPreorder();
    Sorting.SortSorted(AllClaimTasks(AdjusterClaims(claims, adjusterId), now), TaskLeq);
    var r := Tasks(claims, adjusterId, now);
    forall i, j | 0 <= i < j < |r|
      ensures PriorityRank(r[i].priority) == PriorityRank(r[j].priority) ==> r[i].priority == r[j].priority
    {
    }
  }

  /** Only tasks of the selected adjuster's claims appear; a claim of
      another adjuster, or an unassigned claim, contributes nothing. */
  lemma TasksOnlyFromAdjuster(claims: seq<Claim>, adjusterId: string, now: int, t: Task)
    requires t in Tasks(claims, adjusterId, now)
    ensures exists c :: c in claims && c.assignedAdjusterId == Some(adjusterId) && c.id == t.claimId
  {
  }

  /** `getTaskStatus`: red when overdue, green when completed, yellow for
      other high-priority tasks, green otherwise. */
  function GetTaskStatus(t: Task): (l: Light)
    ensures l == Red <==> t.status == Overdue
    ensures l == Yellow <==> t.status != Overdue && t.status != TaskStatus.Completed && t.priority == High
    ensures l == Green <==> t.status == TaskStatus.Completed || (t.status != Overdue && t.priority != High)
  {
    if t.status == Overdue then Red
    else if t.status == TaskStatus.Completed then Green
    else if t.priority == High then Yellow
    else Green
  }

  /** The priority panel: the overdue tasks and the high-priority ones, in
      list order. */
  function PriorityTasks(ts: seq<Task>): (r: seq<Task>)
    ensures IsSubsequence(r, ts)
    ensures forall t :: t in r <==> t in ts && (t.status == Overdue || t.priority == High)
  {
    Filter((t: Task) => t.status == Overdue || t.priority == High, ts)
  }

  /** On a generated task list every task of the panel shows red or
      yellow, never green. */
  lemma PriorityPanelNeverGreen(claims: seq<Claim>, adjusterId: string, now: int)
    ensures forall t :: t in PriorityTasks(Tasks(claims, adjusterId, now)) ==> GetTaskStatus(t) != Green
  {
    forall t | t in PriorityTasks(Tasks(claims, adjusterId, now))
      ensures GetTaskStatus(t) != Green
    {
      var c :| c in claims && c.assignedAdjusterId == Some(adjusterId) && t in ClaimTasks(c, now);
    }
  }

  /** The panel keeps the order of the task list. */
  lemma PriorityTasksOrdered(claims: seq<Claim>, adjusterId: string, now: int)
    ensures Sorting.SortedBy(PriorityTasks(Tasks(claims, adjusterId, now)), TaskLeq)
  {
    TaskLeqIsPreorder();
    var ts := Tasks(claims, adjusterId, now);
    Sorting.SortSorted(AllClaimTasks(AdjusterClaims(claims, adjusterId), now), TaskLeq);
    Sorting.FilterKeepsSorted((t: Task) => t.status == Overdue || t.priority == High, ts, TaskLeq);
  }
}
