# Claims dashboard decision rules in Dafny

This project models the decision rules inside a browser-based dashboard for
insurance-claims operations. The dashboard keeps claims, adjusters, KPI
events and a per-claim questionnaire (the "workflow") in memory as sample
fixtures. The model covers:

- **the conditional questionnaire engine** (`WorkflowForm`): which questions
  are visible given the answers so far, the current answer to a question,
  the completion status of a section, section expand/collapse, and grouping
  into sections sorted by display order;
- **the response store** (`WorkflowManager`): the responses of the selected
  claim, and the upsert run when an answer changes;
- **the dropdown-option table** (`DropdownMapping`): exact lookup, then a
  substring match in either direction, then null;
- **the deadline traffic light** (`TimeStatus`): green, yellow or red from a
  target time, an optional completion time and the clock;
- **the adjuster task list** (`AdjusterInterface`): contact, inspection and
  estimate tasks derived from each claim's lifecycle times, their sort
  order, badge colour and the priority panel;
- **the claim list** (`ClaimsManagement`): search, status and adjuster
  filters, the status choices, and the claim opened in the detail panel;
- **the manager dashboard** (`ManagerDashboard`): status counts,
  first-contact compliance, overdue and approaching-deadline counts, the
  compliance and workload colours, and the five most recent claims;
- **the fixtures** (`Questions`, `Claims`): the 27 sample questions, the
  sample responses, claims, KPI events and adjusters, as constants, with
  lemmas stating the facts the engine relies on.

Records are immutable datatypes. Dates are integer milliseconds since the
epoch. Optional fields are `Option`s. A JavaScript `null` or `''` selection
is `None` or `Some("")`; `Seqs.IsTruthy` tells them apart from a real
selection. The clock (`new Date()`), the fresh response id
(`resp_${Date.now()}`) and the list of questions searched are parameters.
Array `filter`, `find` and `includes` are `Seqs.Filter`, `Seqs.Find` and
`Seqs.Contains`. `Array.prototype.sort` is a stable insertion sort
(`Sorting.Sort`), which keeps `a` in front of `b` when the comparator gives
a value of at most 0. Percentages are exact `real`s.

Files, one module each: `seqs.dfy` and `sorting.dfy` (shared helpers),
`time_status.dfy`, `questions.dfy`, `claims.dfy`, `workflow_form.dfy`,
`workflow_manager.dfy`, `dropdown_mapping.dfy`, `adjuster_interface.dfy`,
`claims_management.dfy` and `manager_dashboard.dfy`.

## Model

| member | source | states |
|---|---|---|
| TimeStatus.GetTimeStatus | lib/utils.ts:18-26 | With a completion time, green iff it is no later than the target, red otherwise. Without one: green when more than 4 hours (14,400,000 ms) remain, yellow when more than 0 and at most 4 hours remain (exactly 4 hours is yellow), red when the target is reached or passed. |
| TimeStatus.StatusWorsensOverTime | lib/utils.ts:19-25 | With the target fixed and nothing completed, a later clock never gives a better light. |
| TimeStatus.CompletedIgnoresClock | lib/utils.ts:19-22 | Once a completion time is given, the light does not depend on the clock. |
| Sorting.Sort | components/workflow/workflow-form.tsx:39 | `Array.prototype.sort` with a comparator: the result has the input's length and is a permutation of it (same multiset). |
| Sorting.SortSorted | components/adjusters/adjuster-interface.tsx:104-116 | For any comparator that is a total preorder, every earlier element of the result may stay in front of every later one. |
| Sorting.SortOfSorted | components/workflow/workflow-form.tsx:39 | A list already in comparator order comes back unchanged. |
| Sorting.SortStable | components/dashboard/manager-dashboard.tsx:61 | The sort is stable, as ECMAScript 2019 requires: for a total preorder, the elements the comparator calls equal to any given one keep their original relative order. |
| Sorting.InsertKeepsClassOrder | components/workflow/workflow-form.tsx:39 | Inserting an element changes the sublist of any class of comparator-equal elements only by putting the element at its front, when it belongs to that class. |
| Sorting.FilterKeepsSorted | components/adjusters/adjuster-interface.tsx:104-116 | Keeping only the elements that pass a test leaves a comparator-ordered list ordered. |
| Questions.SampleQuestionsInvariants | lib/data/questions.ts:42-428 | The sample has 27 questions and the ids are pairwise distinct. Display orders run 1 to 27 in list order. Every `showIf` condition names an earlier question of the same section, and every value it accepts is one of that question's options. A question with both a parent and conditions is conditional on its parent. Every select or multiselect question has options. |
| Questions.AppendSection | lib/data/questions.ts:42-428 | Appending a well-formed section with a new id prefix keeps the questionnaire invariants: distinct ids, consecutive display orders, resolved conditions. This is how the fixture invariants are built section by section. |
| Questions.ConcatResolved | lib/data/questions.ts:9-14 | Concatenating two lists whose conditions are each resolved by earlier questions keeps every condition resolved. |
| Questions.ClaimRepresentationShape | lib/data/questions.ts:43-60 | Every "Claim Representation" id starts with `cl`. Display orders start at 1. Parent links and options are well formed. |
| Questions.ClaimRepresentationLinks | lib/data/questions.ts:43-60 | The section's ids are distinct and its conditions are resolved. |
| Questions.SetupShape | lib/data/questions.ts:61-110 | Every "Setup & First Contact" id starts with `se`. Display orders continue from 2. Parent links and options are well formed. |
| Questions.SetupLinks | lib/data/questions.ts:61-110 | The section's ids are distinct. The `setup_003` condition at line 106 names an earlier question, and its value is among that question's options. |
| Questions.ContactShape | lib/data/questions.ts:111-178 | Every contact-section id starts with `co`. Display orders continue from 6. Parent links and options are well formed. |
| Questions.ContactIdsDistinct | lib/data/questions.ts:111-178 | The contact section's ids are pairwise distinct. |
| Questions.ContactLinks | lib/data/questions.ts:111-178 | The conditions at lines 134, 148 and 174 are resolved by earlier questions of the section, and their values are among those questions' options. |
| Questions.EagleViewShape | lib/data/questions.ts:179-220 | Every EagleView id starts with `ea`. Display orders continue from 11. Parent links and options are well formed. |
| Questions.EagleViewLinks | lib/data/questions.ts:179-220 | Ids are distinct. The conditions at lines 202 and 216 are resolved by `eagle_001`. |
| Questions.LadderAssistShape | lib/data/questions.ts:221-263 | Every Ladder Assist id starts with `la`. Display orders continue from 14. Parent links and options are well formed. |
| Questions.LadderAssistLinks | lib/data/questions.ts:221-263 | Ids are distinct. The conditions at lines 244 and 259 are resolved by `ladder_001`. |
| Questions.InspectionShape | lib/data/questions.ts:264-297 | Every inspection id starts with `in`. Display orders continue from 17. Parent links and options are well formed. |
| Questions.InspectionLinks | lib/data/questions.ts:264-297 | Ids are distinct and conditions are resolved. |
| Questions.DocumentationShape | lib/data/questions.ts:298-337 | Every documentation id starts with `do`. Display orders continue from 20. Parent links and options are well formed. |
| Questions.DocumentationLinks | lib/data/questions.ts:298-337 | Ids are distinct and conditions are resolved. |
| Questions.QaReviewShape | lib/data/questions.ts:338-376 | Every QA id starts with `qa`. Display orders continue from 22. Parent links and options are well formed. |
| Questions.QaReviewLinks | lib/data/questions.ts:338-376 | Ids are distinct. The three values accepted at line 372 are all options of `qa_002`. |
| Questions.StatusShape | lib/data/questions.ts:377-427 | Every status-reporting id starts with `st`. Display orders run from 25 to 27. Parent links and options are well formed. |
| Questions.StatusLinks | lib/data/questions.ts:377-427 | Ids are distinct and conditions are resolved. |
| Questions.LeadingSectionsInvariants | lib/data/questions.ts:43-220 | The first four sections together satisfy the questionnaire invariants. |
| Questions.MiddleSectionsInvariants | lib/data/questions.ts:43-337 | The first seven sections together satisfy the questionnaire invariants. |
| Questions.SampleResponsesAnswerListedQuestions | lib/data/questions.ts:431-476 | Each sample response copies the text, section, level and parent of the question it answers: `setup_001`, `setup_002`, `setup_003` and `contact_001`. Each answer to a select question is one of its options. |
| Questions.SameIdSameQuestion | lib/data/questions.ts:42-428 | Two sample questions with the same id are the same question. |
| Questions.SampleResponsesAnswerQuestions | lib/data/questions.ts:431-476 | Every sample response answers an existing sample question. The question carrying the response's id is the one it answers. |
| Claims.SelectedClaim | components/workflow/workflow-manager.tsx:22 | Nothing when the selected id is null or "" (falsy). Otherwise nothing iff no claim has the id, else the first claim with the id. The claims page computes `selectedClaimData` the same way (components/claims/claims-management.tsx:55). |
| Claims.LaterOf | lib/data/claims.ts:25-26 | The later of a time and an optional time: at least both, and equal to one of them. |
| Claims.Claim1WellFormed | lib/data/claims.ts:46-69 | Claim 1 has its deadline 24 hours after queue entry. The loss precedes queue entry. Lifecycle times are ordered. `createdAt` is queue entry and `updatedAt` is the latest lifecycle time. It is assigned to `adj1` under that adjuster's listed name. |
| Claims.Claim2WellFormed | lib/data/claims.ts:70-94 | Claim 2 satisfies the same facts, with adjuster `adj2`. |
| Claims.Claim3WellFormed | lib/data/claims.ts:95-117 | Claim 3 satisfies the same facts, with adjuster `adj1`. |
| Claims.Claim4WellFormed | lib/data/claims.ts:118-138 | Claim 4 satisfies the same facts. It is in the queue and has neither an adjuster id nor a name. |
| Claims.Claim5WellFormed | lib/data/claims.ts:139-165 | Claim 5 satisfies the same facts: contacted ≤ inspected ≤ estimate ≤ QA approved, with adjuster `adj3`. |
| Claims.SampleClaimsWellFormed | lib/data/claims.ts:45-166 | Every sample claim is well formed, as above, and names a listed adjuster. |
| Claims.SampleClaimIdsDistinct | lib/data/claims.ts:45-166 | The sample claim ids are pairwise distinct. |
| Claims.AdjustersWithinCapacity | lib/data/claims.ts:217-223 | Every adjuster's workload lies between 0 and its maximum. |
| Claims.SampleKpiEventsMatchClaims | lib/data/claims.ts:169-215 | Each KPI event belongs to a sample claim and targets that claim's first-contact deadline. A recorded contact time equals the claim's, is on time and compliant, and its duration is the hours from queue entry to contact. An event without a contact has duration 0. A contacted event's light is the one `getTimeStatus` gives it, for any clock. |
| WorkflowForm.VisibleQuestions | components/workflow/workflow-form.tsx:46-60 | The visible questions are a subsequence of the section's questions, kept in order. A question is in it iff it is in the section and either has no conditional logic or every condition holds. |
| WorkflowForm.FirstResponseUnique | components/workflow/workflow-form.tsx:51 | There is only one first response to a question. |
| WorkflowForm.FindResponseFirst | components/workflow/workflow-form.tsx:51 | `find` returns nothing iff no response answers the question; otherwise it returns the first response that does. |
| WorkflowForm.ConditionHoldsIff | components/workflow/workflow-form.tsx:50-58 | A condition holds iff the question it looks at has a first response and that response matches. A list condition matches by membership. A single value matches by equality. A list-valued response never matches. |
| WorkflowForm.UnansweredConditionHides | components/workflow/workflow-form.tsx:51-52 | A condition on a question nobody answered hides the question that carries it. |
| WorkflowForm.ListAnswerMeetsNoCondition | components/workflow/workflow-form.tsx:54-57 | When the first response is a list (a multiselect answer), the condition fails whatever the list holds. |
| WorkflowForm.UnconditionalAlwaysVisible | components/workflow/workflow-form.tsx:48-50 | A question with no conditional logic, or with an empty `showIf` list, is always visible. |
| WorkflowForm.GetResponse | components/workflow/workflow-form.tsx:63-65 | '' when no response answers the question; otherwise the value of the first response that does. |
| WorkflowForm.AnsweredIff | components/workflow/workflow-form.tsx:102-105 | A question counts as answered iff its first response holds a non-empty string or a list; an empty list counts too. |
| WorkflowForm.GetSectionStatus | components/workflow/workflow-form.tsx:99-110 | Complete iff every visible required question is answered, which includes having none. Partial iff some are answered and some are not. Pending iff there are unanswered ones and none is answered. |
| WorkflowForm.ToggleSection | components/workflow/workflow-form.tsx:88-96 | The named section flips between expanded and collapsed; every other section keeps its state. |
| WorkflowForm.ToggleTwice | components/workflow/workflow-form.tsx:88-96 | Toggling a section twice restores the expanded set. |
| WorkflowForm.SectionNames | components/workflow/workflow-form.tsx:29-35 | The section names: distinct, exactly those that occur in the question list, and in order of first appearance (of any two, the earlier one has a question before every question of the later one). For plain keys (`PlainKey`: not all digits, not an `Object.prototype` property name) this is the key order of the grouping object. |
| WorkflowForm.AppearsBeforeLifts | components/workflow/workflow-form.tsx:29-35 | Dropping questions that are not of section `b` does not change whether section `a` first appears before `b`. |
| WorkflowForm.SectionGroups | components/workflow/workflow-form.tsx:28-43 | One group per section name, in the order of `SectionNames`, each holding that section's sorted questions; of any two groups, the sections differ and the earlier one first appears in the list before the later one. For plain section names this is the grouping object with its keys in `Object.keys` order. |
| WorkflowForm.DisplayOrderIsPreorder | components/workflow/workflow-form.tsx:39 | The display-order comparator is a total preorder, so the sort result is ordered by it. |
| WorkflowForm.SectionGroupSorted | components/workflow/workflow-form.tsx:28-43 | A group holds exactly the section's questions, each as often as in the list, in ascending display order. |
| WorkflowForm.CapitalizedIsPlain | components/workflow/workflow-form.tsx:31-34 | A name starting with a capital letter is neither all digits nor an inherited `Object.prototype` property name, so `groups` keeps it as an own key in insertion order. |
| WorkflowForm.SampleSectionNamesPlain | components/workflow/workflow-form.tsx:29-35 | Every section name of the sample questionnaire is a plain key, so for it the first-appearance order is the grouping object's key order and no `push` throws. |
| WorkflowForm.SampleGroupsKeepListOrder | components/workflow/workflow-form.tsx:28-43 | Because the sample display orders ascend in list order, each sample group is the section's questions in list order. |
| WorkflowForm.ShownSections | components/workflow/workflow-form.tsx:254-259 | A section is rendered iff at least one of its questions is visible. |
| WorkflowManager.ClaimResponses | components/workflow/workflow-manager.tsx:23 | The responses whose claim id equals the selected one, in their original order; none without a selection. |
| WorkflowManager.Restamp | components/workflow/workflow-manager.tsx:37 | The updated response has the new value and time, and every other field as before. |
| WorkflowManager.RestampById | components/workflow/workflow-manager.tsx:35-39 | Same length. Every response with the matched response id is restamped; every other response is unchanged. |
| WorkflowManager.NewResponse | components/workflow/workflow-manager.tsx:42-53 | The new response has the fresh id, the claim, the value, the current user and the clock. It answers the question, except for a select value outside the question's options. |
| WorkflowManager.HandleResponseUpdate | components/workflow/workflow-manager.tsx:25-56 | Without a selected claim, or for an unknown question id, the list is unchanged. Otherwise the list keeps its length or grows by one at the end, with the old list as prefix. |
| WorkflowManager.FindInSlotFirst | components/workflow/workflow-manager.tsx:28 | The existing-response lookup finds nothing iff the claim has no response to the question; otherwise it finds the first one. |
| WorkflowManager.UpdateExisting | components/workflow/workflow-manager.tsx:28-39 | When the claim already answered the question, the length is unchanged. The first such response gets the new value and time and nothing else changes in it. Every other response is identical. |
| WorkflowManager.UpdateAppends | components/workflow/workflow-manager.tsx:40-54 | When the claim has not answered the question, exactly one response is appended. It copies the question's text, parent, level and section, and records the fresh id, value, current user and clock. |
| WorkflowManager.RestampKeepsSlots | components/workflow/workflow-manager.tsx:35-39 | An update in place never changes which claim and question a response belongs to. |
| WorkflowManager.UpdateStoresValue | components/workflow/workflow-manager.tsx:25-56 | After an update for a selected claim and a known question, that claim's first response to the question carries the new value. |
| WorkflowManager.UpdateKeepsSlotsUnique | components/workflow/workflow-manager.tsx:25-56 | If no claim had two responses to one question before an update, none has after it. |
| WorkflowManager.UpdateKeepsIdsUnique | components/workflow/workflow-manager.tsx:40-54 | With a fresh id not used before, response ids stay unique. |
| WorkflowManager.FormSeesFirstInSlot | components/workflow/workflow-manager.tsx:23 | On the selected claim's responses, the form's `getResponse` shows the value of that claim's first response to the question. |
| WorkflowManager.ShownResponseSkipsOther | components/workflow/workflow-form.tsx:63-65 | A response to another question placed in front does not change the value shown. |
| WorkflowManager.FormShowsUpdatedValue | components/workflow/workflow-manager.tsx:25-56 | After an update for the selected claim, the form shows the new value for the question. |
| WorkflowManager.SampleResponsesUnique | lib/data/questions.ts:431-476 | The sample responses have distinct ids and at most one response per claim and question. |
| DropdownMapping.ExactLookup | lib/data/real_dropdown_mapping.ts:47-49 | The indexing finds nothing iff no pattern equals the text; otherwise it returns the options of an entry whose pattern is the text. |
| DropdownMapping.OptionsFor | lib/data/real_dropdown_mapping.ts:45-59 | A result is always some entry's options. Null iff no pattern contains the text and the text contains no pattern. |
| DropdownMapping.ExactMatchWins | lib/data/real_dropdown_mapping.ts:47-49 | An exact match returns that entry's options, even when an earlier entry is related to the text. |
| DropdownMapping.FallbackTakesFirstRelated | lib/data/real_dropdown_mapping.ts:52-56 | Without an exact match, the options of the first related entry in declaration order are returned. |
| DropdownMapping.GetRealDropdownOptions | lib/data/real_dropdown_mapping.ts:45-59 | On the 18-entry table, a result is one of the table's option lists. Null iff the text is related to no pattern. |
| DropdownMapping.ShouldUseRealDropdown | lib/data/real_dropdown_mapping.ts:62-64 | True iff some pattern is related to the text, iff the lookup is not null. |
| DropdownMapping.OptionListsNonEmpty | lib/data/real_dropdown_mapping.ts:8-42 | Every option list of the table is non-empty. |
| DropdownMapping.ReturnedOptionsNonEmpty | lib/data/real_dropdown_mapping.ts:45-59 | The lookup never returns an empty list. |
| DropdownMapping.PatternsNonEmpty | lib/data/real_dropdown_mapping.ts:10-41 | No pattern is the empty string. |
| DropdownMapping.EmptyTextGetsYesNo | lib/data/real_dropdown_mapping.ts:10 | The empty text is contained in the first pattern, so it gets `["Yes", "No"]` and never null. |
| DropdownMapping.PatternsDistinct | lib/data/real_dropdown_mapping.ts:10-41 | The 18 patterns are pairwise distinct, as object keys are. |
| DropdownMapping.PatternGetsItsOptions | lib/data/real_dropdown_mapping.ts:45-49 | Looking up any pattern of the table returns that pattern's own options. |
| AdjusterInterface.AdjusterClaims | components/adjusters/adjuster-interface.tsx:31 | The claims assigned to the adjuster, in list order. |
| AdjusterInterface.StatusAt | components/adjusters/adjuster-interface.tsx:51 | Overdue iff the clock is strictly past the due date, pending otherwise. |
| AdjusterInterface.ContactTasks | components/adjusters/adjuster-interface.tsx:50-64 | One contact task iff the claim is uncontacted. It is due at the first-contact deadline, carries the claim's priority, and is overdue iff the clock is past the deadline. |
| AdjusterInterface.InspectTasks | components/adjusters/adjuster-interface.tsx:67-83 | One inspection task iff the claim is contacted and not inspected. It is due two days after contact. |
| AdjusterInterface.EstimateTasks | components/adjusters/adjuster-interface.tsx:86-101 | One estimate task iff the claim is inspected and has no estimate. It is due three days after inspection. |
| AdjusterInterface.ClaimTasks | components/adjusters/adjuster-interface.tsx:48-102 | At most three tasks per claim, each kind present iff its lifecycle condition holds. Every task has its kind's due date, the claim's priority, and is overdue iff the clock is past the due date, pending otherwise. |
| AdjusterInterface.OrderedClaimHasOneTask | components/adjusters/adjuster-interface.tsx:50-86 | A claim that is inspected only after being contacted yields at most one task. |
| AdjusterInterface.SampleClaimsHaveOneTask | components/adjusters/adjuster-interface.tsx:48-102 | Every sample claim yields at most one task at any time. |
| AdjusterInterface.AllClaimTasks | components/adjusters/adjuster-interface.tsx:48-102 | A task is generated iff it is a task of one of the given claims. |
| AdjusterInterface.TaskLeqIsPreorder | components/adjusters/adjuster-interface.tsx:104-116 | The task comparator is a total preorder. |
| AdjusterInterface.Tasks | components/adjusters/adjuster-interface.tsx:34-117 | The task list is a permutation of the generated tasks. A task is listed iff it is a task of a claim assigned to the adjuster. |
| AdjusterInterface.TasksOrdered | components/adjusters/adjuster-interface.tsx:104-116 | The list is ordered: overdue before pending, then high before medium before low, then earlier due date first. |
| AdjusterInterface.TasksOnlyFromAdjuster | components/adjusters/adjuster-interface.tsx:31-48 | Every listed task belongs to a claim assigned to the selected adjuster. |
| AdjusterInterface.GetTaskStatus | components/adjusters/adjuster-interface.tsx:129-134 | Red iff overdue. Yellow iff not overdue, not completed and high priority. Green iff completed, or not overdue and not high priority. |
| AdjusterInterface.PriorityTasks | components/adjusters/adjuster-interface.tsx:231 | The panel shows exactly the overdue or high-priority tasks, in list order. |
| AdjusterInterface.PriorityPanelNeverGreen | components/adjusters/adjuster-interface.tsx:231-233 | On a generated task list, no task of the panel shows green. |
| AdjusterInterface.PriorityTasksOrdered | components/adjusters/adjuster-interface.tsx:104-116 | The panel keeps the task list's order. |
| ClaimsManagement.StatusCodesDistinct | lib/data/claims.ts:18 | Status codes are distinct, and none is `all`. |
| ClaimsManagement.FilteredClaims | components/claims/claims-management.tsx:30-42 | The filtered claims are a subsequence of the list, kept in order. A claim passes iff all three hold: the lower-cased term occurs in its lower-cased number, name or city; the status filter is `all` or equal; the adjuster filter is `all` or equal. |
| ClaimsManagement.NoFilterListsAll | components/claims/claims-management.tsx:33-38 | An empty search with both filters at `all` lists every claim, in its place. |
| ClaimsManagement.SpecificAdjusterHidesUnassigned | components/claims/claims-management.tsx:38 | A specific adjuster filter lists only claims assigned to that adjuster, never an unassigned one. |
| ClaimsManagement.NarrowingStatusShrinks | components/claims/claims-management.tsx:37-40 | Replacing `all` by a specific status yields a subsequence of the previous result. |
| ClaimsManagement.NarrowingAdjusterShrinks | components/claims/claims-management.tsx:38-40 | Replacing `all` by a specific adjuster yields a subsequence of the previous result. |
| ClaimsManagement.StatusOptionsOmitTwo | components/claims/claims-management.tsx:44-53 | A status can be chosen iff it is neither `correction_returned` nor `reviewed`. |
| ClaimsManagement.OmittedStatusOnlyUnderAll | components/claims/claims-management.tsx:44-53 | A correction-returned or reviewed claim is listed under no status option except `all`. |
| Claims.SelectingUniqueId | components/claims/claims-management.tsx:55 | When claim ids are distinct, selecting a claim's non-empty id opens exactly that claim. |
| ClaimsManagement.SelectingSampleClaim | components/claims/claims-management.tsx:55 | Selecting a sample claim's id opens exactly that claim. |
| ManagerDashboard.CountIf | components/dashboard/manager-dashboard.tsx:25-27 | A count never exceeds the number of claims. |
| ManagerDashboard.Percent | components/dashboard/manager-dashboard.tsx:32 | The percentage lies in [0, 100]. It is 0 for an empty whole or a zero part, and 100 when the part is the whole. |
| ManagerDashboard.PercentBound | components/dashboard/manager-dashboard.tsx:32 | `part / whole * 100` lies in [0, 100] when 0 ≤ part ≤ whole and whole > 0. |
| ManagerDashboard.FirstContactEvents | components/dashboard/manager-dashboard.tsx:30 | Exactly the first-contact events. |
| ManagerDashboard.CompliantEvents | components/dashboard/manager-dashboard.tsx:31 | Exactly the compliant events. |
| ManagerDashboard.ComplianceRate | components/dashboard/manager-dashboard.tsx:30-32 | The compliance rate lies in [0, 100]. |
| ManagerDashboard.ComplianceRateExtremes | components/dashboard/manager-dashboard.tsx:30-32 | 0 without first-contact events, 0 when none is compliant, 100 when there are some and all are compliant. |
| ManagerDashboard.Stats | components/dashboard/manager-dashboard.tsx:23-58 | Queued + in progress + completed = total. The overdue and approaching counts are at most the total. The compliance rate lies in [0, 100]. |
| ManagerDashboard.OverdueExcludesApproaching | components/dashboard/manager-dashboard.tsx:36-47 | When the deadline is 24 hours after queue entry, no claim is both overdue and approaching. |
| ManagerDashboard.CountsAgreeWithLight | components/dashboard/manager-dashboard.tsx:43-47 | For such an uncontacted claim, approaching iff its deadline light is yellow, and overdue implies red. |
| ManagerDashboard.OverdueAndApproachingFit | components/dashboard/manager-dashboard.tsx:36-47 | With such deadlines, overdue + approaching ≤ total. |
| ManagerDashboard.PartitionWithin | components/dashboard/manager-dashboard.tsx:36-47 | Two tests that no claim passes together select at most as many claims as the list holds. |
| ManagerDashboard.ComplianceColor | components/dashboard/manager-dashboard.tsx:203 | Green iff ≥ 95, yellow iff in [80, 95), red iff < 80. |
| ManagerDashboard.ComplianceColorMonotone | components/dashboard/manager-dashboard.tsx:203 | A higher rate never shows a worse colour. |
| ManagerDashboard.PercentAtLeast | components/dashboard/manager-dashboard.tsx:388-389 | For a positive maximum, `cur / max * 100 ≥ k` iff `100·cur ≥ k·max`. |
| ManagerDashboard.WorkloadStatus | components/dashboard/manager-dashboard.tsx:388-389 | For a positive maximum: red iff 100·cur ≥ 90·max, yellow iff 70·max ≤ 100·cur < 90·max, green iff 100·cur < 70·max. For a zero maximum: red iff the load is positive (Infinity), otherwise green (NaN), never yellow. |
| ManagerDashboard.WorkloadStatusMonotone | components/dashboard/manager-dashboard.tsx:388-389 | More load never shows a better colour. |
| ManagerDashboard.SampleQueueCount | components/dashboard/manager-dashboard.tsx:25 | One sample claim is in the queue. |
| ManagerDashboard.SampleStatusCounts | components/dashboard/manager-dashboard.tsx:25-27 | The sample shows 1 claim in the queue, 4 assigned and 0 completed. |
| ManagerDashboard.SampleCompliantCount | components/dashboard/manager-dashboard.tsx:30-31 | All four sample KPI events are first-contact events, and three are compliant. |
| ManagerDashboard.SampleCompliance | components/dashboard/manager-dashboard.tsx:30-32 | The sample compliance rate is 75%, which shows red. |
| ManagerDashboard.SampleWorkloads | components/dashboard/manager-dashboard.tsx:387-389 | Only the fourth adjuster (15 of 20) shows yellow; all others show green. |
| ManagerDashboard.NewerFirstIsPreorder | components/dashboard/manager-dashboard.tsx:61 | The newest-first comparator is a total preorder. |
| ManagerDashboard.RecentClaimsAsWritten | components/dashboard/manager-dashboard.tsx:60-62 | As written: the shared list is replaced by a reordering of itself, and the recent list is its first min(5, n) claims. |
| ManagerDashboard.DashboardReordersSharedClaims | components/dashboard/manager-dashboard.tsx:60-62 | On the sample claims, the as-written sort changes the shared list. The claims page, which filters that list, then shows a different order. |
| ManagerDashboard.RecentClaims | components/dashboard/manager-dashboard.tsx:60-62 | min(5, n) claims, in descending queue-entry order. |
| ManagerDashboard.RecentClaimsAreNewest | components/dashboard/manager-dashboard.tsx:60-62 | The recent claims come from the list, and no claim left out entered the queue later than a listed one. |
| ManagerDashboard.RecentClaimsMatchAsWritten | components/dashboard/manager-dashboard.tsx:60-62 | The corrected recent list equals the one as written. This holds by construction (both slice the same stable sort); the fix only stops the shared list from being reordered. |

## Left out

- Rendering, CSS class selection, animation and React hooks are not modelled; component state is explicit inputs and outputs. The presentation components under components/ui are not part of this model.
- data/complete_question_types.ts declares types only and is not part of this model.
- WorkflowForm.SectionNames: section names that are not plain keys are not modelled. A name made only of digits (an array index such as "2" or "10") is listed by `Object.keys` and `Object.entries` before all other keys, in ascending numeric order, not in first-appearance order. For an `Object.prototype` property name such as "constructor", "toString" or "__proto__", `!groups[name]` is false, so `groups[name].push` throws a TypeError at components/workflow/workflow-form.tsx:34. The model groups such names like any other; the sample questionnaire has none (`WorkflowForm.SampleSectionNamesPlain`).
- `formatDate` and `toLocaleString` format dates for the locale and are not modelled.
- The clock (`new Date()`) and `Date.now()` in response ids are parameters, not modelled.
- `setDate(getDate() + n)` works in local time (daylight saving, month rollover). The model adds n × 86,400,000 ms.
- Floating point is not modelled: percentages are exact reals, and hours are compared as whole milliseconds. The two agree whenever the millisecond difference is below 2^53 in magnitude (it is then an exact double, and the 4- and 24-hour thresholds are exact quotients); larger differences, beyond about 285,000 years, are not modelled.
- `toLowerCase` is modelled for ASCII letters only; other characters are kept unchanged.
- Looking up `realDropdownMappings` by a text that names a prototype property (such as "constructor") is not modelled; only the table's own keys are.
- The "today's tasks" panel (components/adjusters/adjuster-interface.tsx:284-288) compares local calendar dates with `toDateString`; it is not modelled.
- `getTaskIcon`, the workload progress-bar widths, and the question fields `validationRules`, `placeholder` and `helpText` only affect display and are not modelled.
- The "My Claims" light (components/adjusters/adjuster-interface.tsx:367) is `getTimeStatus` applied to a claim, which `TimeStatus.GetTimeStatus` covers; the call site is not modelled separately.
- WorkflowManager.UpdateExisting: proved only when response ids are unique, because the source updates every response carrying the matched response id; with duplicates, several responses change.
- Claims.SampleKpiEventsMatchClaims: the lights of the two events without a contact time depend on the clock, so only the events with a contact time are tied to `getTimeStatus`.

## Findings

| source | as written | input that shows it | evidently intended | confidence | as-written member | corrected member |
|---|---|---|---|---|---|---|
| components/dashboard/manager-dashboard.tsx:60-62 | `sampleClaims.sort(...)` sorts the shared sample array in place on every dashboard render, then slices the first five | the sample claims, where claim 1 entered the queue before claim 2 but is listed first; afterwards the claims page, which filters the same array, lists claims newest first instead of in fixture order | sort a copy (`[...sampleClaims].sort(...)`), so other pages keep the fixture order | medium, not executed | ManagerDashboard.RecentClaimsAsWritten, ManagerDashboard.DashboardReordersSharedClaims | ManagerDashboard.RecentClaims, ManagerDashboard.RecentClaimsAreNewest |
