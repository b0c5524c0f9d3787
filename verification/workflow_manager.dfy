/** The response store of components/workflow/workflow-manager.tsx: the
    responses of the selected claim, and the upsert run when the form reports
    a changed answer. The selected claim id is `None` for `null`; the fresh
    response id (`resp_${Date.now()}`) and the clock reading are parameters.
    The questions searched are a parameter too; the page passes the sample
    questionnaire. */
module WorkflowManager {
  import opened Seqs
  import opened Questions
  import WorkflowForm

  /** Name recorded on responses entered in the form. */
  const CurrentUser: string := "Current User"

  /** `claimResponses`: the responses whose claim id equals the selected
      one, in their original order. */
  function ClaimResponses(responses: seq<WorkflowResponse>, selected: Option<string>): (r: seq<WorkflowResponse>)
    ensures IsSubsequence(r, responses)
    ensures forall x :: x in r <==> x in responses && selected == Some(x.claimId)
    ensures selected.None? ==> r == []
  {
    Filter((x: WorkflowResponse) => selected == Some(x.claimId), responses)
  }

  /** The response belongs to this claim and this question. */
  predicate InSlot(r: WorkflowResponse, claimId: string, questionId: string) {
    r.claimId == claimId && r.questionId == questionId
  }

  /** `k` is the position of the first response to `questionId` for
      `claimId`. */
  predicate FirstInSlotAt(responses: seq<WorkflowResponse>, claimId: string, questionId: string, k: int) {
    && 0 <= k < |responses|
    && InSlot(responses[k], claimId, questionId)
    && forall j :: 0 <= j < k ==> !InSlot(responses[j], claimId, questionId)
  }

  /** No two responses share a response id. */
  predicate IdsUnique(responses: seq<WorkflowResponse>) {
    forall i, j :: 0 <= i < j < |responses| ==> responses[i].id != responses[j].id
  }

  /** No claim has two responses to the same question. */
  predicate SlotsUnique(responses: seq<WorkflowResponse>) {
    forall i, j :: 0 <= i < j < |responses| ==>
      !InSlot(responses[j], responses[i].claimId, responses[i].questionId)
  }

  /** The response with its value replaced and its time stamped. */
  function Restamp(r: WorkflowResponse, value: ResponseValue, now: int): (t: WorkflowResponse)
    ensures t.responseValue == value && t.respondedAt == now
    ensures t.(responseValue := r.responseValue, respondedAt := r.respondedAt) == r
  {
    r.(responseValue := value, respondedAt := now)
  }

  /** The `prev.map(...)` of the update branch: every response carrying the
      given response id is restamped, the others are kept. */
  function RestampById(responses: seq<WorkflowResponse>, id: string, value: ResponseValue, now: int): (r: seq<WorkflowResponse>)
    ensures |r| == |responses|
    ensures forall i :: 0 <= i < |r| && responses[i].id != id ==> r[i] == responses[i]
    ensures forall i :: 0 <= i < |r| && responses[i].id == id ==> r[i] == Restamp(responses[i], value, now)
  {
    seq(|responses|, i requires 0 <= i < |responses| =>
      if responses[i].id == id then Restamp(responses[i], value, now) else responses[i])
  }

  /** The response created for a question that had none. */
  function NewResponse(freshId: string, claimId: string, q: Question, value: ResponseValue, now: int): (r: WorkflowResponse)
    ensures Answers(r, q) <==> (q.questionType == Select ==> value.Single? && value.text in Options(q))
    ensures r.id == freshId && r.claimId == claimId && r.responseValue == value
    ensures r.respondedBy == CurrentUser && r.respondedAt == now
  {
    WorkflowResponse(freshId, claimId, q.id, q.questionText, value, q.parentQuestionId,
                     q.hierarchyLevel, q.sectionName, CurrentUser, now)
  }

  function FindQuestion(questions: seq<Question>, questionId: string): Option<Question> {
    Find((q: Question) => q.id == questionId, questions)
  }

  function FindInSlot(responses: seq<WorkflowResponse>, claimId: string, questionId: string): Option<WorkflowResponse> {
    Find((r: WorkflowResponse) => InSlot(r, claimId, questionId), responses)
  }

  /** `handleResponseUpdate(questionId, value)`: nothing happens without a
      selected claim or for an unknown question; an existing response of the
      claim to the question is updated in place (through its response id);
      otherwise a new response is appended. */
  function HandleResponseUpdate(responses: seq<WorkflowResponse>, selected: Option<string>,
                                questions: seq<Question>, questionId: string, value: ResponseValue,
                                freshId: string, now: int): (r: seq<WorkflowResponse>)
    ensures !IsTruthy(selected) ==> r == responses
    ensures (forall q :: q in questions ==> q.id != questionId) ==> r == responses
    ensures |r| == |responses| || (|r| == |responses| + 1 && r[..|responses|] == responses)
  {
    if !IsTruthy(selected) then responses
    else
      var claimId := selected.value;
      match FindQuestion(questions, questionId)
      case None => responses
      case Some(question) =>
        match FindInSlot(responses, claimId, questionId)
        case Some(existing) => RestampById(responses, existing.id, value, now)
        case None => responses + [NewResponse(freshId, claimId, question, value, now)]
  }

  /** `FindInSlot` returns the first response of the claim to the question. */
  lemma FindInSlotFirst(responses: seq<WorkflowResponse>, claimId: string, questionId: string)
    ensures FindInSlot(responses, claimId, questionId).None? <==>
      forall j :: 0 <= j < |responses| ==> !InSlot(responses[j], claimId, questionId)
    ensures forall k :: FirstInSlotAt(responses, claimId, questionId, k) ==>
      FindInSlot(responses, claimId, questionId) == Some(responses[k])
  {
    var p := (r: WorkflowResponse) => InSlot(r, claimId, questionId);
    match FindIndex(p, responses)
    case None =>
    case Some(k) =>
      assert forall j :: 0 <= j < k ==> !InSlot(responses[j], claimId, questionId);
      assert FirstInSlotAt(responses, claimId, questionId, k);
  }

  /** When the claim already answered the question, the list keeps its
      length and, response ids being unique, only that response changes,
      and only in its value and time. */
  lemma UpdateExisting(responses: seq<WorkflowResponse>, claimId: string, questions: seq<Question>,
                       questionId: string, value: ResponseValue, freshId: string, now: int, k: int)
    requires claimId != ""
    requires exists q :: q in questions && q.id == questionId
    requires FirstInSlotAt(responses, claimId, questionId, k)
    requires IdsUnique(responses)
    ensures var r := HandleResponseUpdate(responses, Some(claimId), questions, questionId, value, freshId, now);
      && |r| == |responses|
      && r[k].responseValue == value && r[k].respondedAt == now
      && r[k].(responseValue := responses[k].responseValue, respondedAt := responses[k].respondedAt) == responses[k]
      && forall i :: 0 <= i < |r| && i != k ==> r[i] == responses[i]
  {
    FindInSlotFirst(responses, claimId, questionId);
    var q :| q in questions && q.id == questionId;
    assert FindQuestion(questions, questionId).Some?;
  }

  /** When the claim has not answered the question, exactly one response is
      appended: it copies the text, parent, level and section of the first
      question with that id and records the value, the clock and the
      current user. */
  lemma UpdateAppends(responses: seq<WorkflowResponse>, claimId: string, questions: seq<Question>,
                      questionId: string, value: ResponseValue, freshId: string, now: int, i: int)
    requires claimId != ""
    requires 0 <= i < |questions| && questions[i].id == questionId
    requires forall j :: 0 <= j < i ==> questions[j].id != questionId
    requires forall x :: x in responses ==> !InSlot(x, claimId, questionId)
    ensures var r := HandleResponseUpdate(responses, Some(claimId), questions, questionId, value, freshId, now);
      && |r| == |responses| + 1
      && r[..|responses|] == responses
      && r[|responses|].id == freshId
      && InSlot(r[|responses|], claimId, questionId)
      && r[|responses|].questionText == questions[i].questionText
      && r[|responses|].parentQuestionId == questions[i].parentQuestionId
      && r[|responses|].hierarchyLevel == questions[i].hierarchyLevel
      && r[|responses|].sectionName == questions[i].sectionName
      && r[|responses|].responseValue == value
      && r[|responses|].respondedBy == CurrentUser
      && r[|responses|].respondedAt == now
  {
    FindInSlotFirst(responses, claimId, questionId);
    var p := (q: Question) => q.id == questionId;
    var k := FindIndex(p, questions).value;
    assert forall j :: 0 <= j < k ==> questions[j].id != questionId;
    assert k == i;
  }

  /** Restamping by response id never changes which claim and question a
      response belongs to. */
  lemma RestampKeepsSlots(responses: seq<WorkflowResponse>, id: string, value: ResponseValue, now: int)
    ensures forall i :: 0 <= i < |responses| ==>
      RestampById(responses, id, value, now)[i].claimId == responses[i].claimId &&
      RestampById(responses, id, value, now)[i].questionId == responses[i].questionId
  {
  }

  /** After an update for a selected claim and a known question, the first
      response of that claim to that question carries the new value. */
  lemma UpdateStoresValue(responses: seq<WorkflowResponse>, claimId: string, questions: seq<Question>,
                          questionId: string, value: ResponseValue, freshId: string, now: int)
    requires claimId != ""
    requires exists q :: q in questions && q.id == questionId
    ensures var r := HandleResponseUpdate(responses, Some(claimId), questions, questionId, value, freshId, now);
      exists k :: FirstInSlotAt(r, claimId, questionId, k) && r[k].responseValue == value
  {
    var r := HandleResponseUpdate(responses, Some(claimId), questions, questionId, value, freshId, now);
    FindInSlotFirst(responses, claimId, questionId);
    var q :| q in questions && q.id == questionId;
    assert FindQuestion(questions, questionId).Some?;
    match FindIndex((x: WorkflowResponse) => InSlot(x, claimId, questionId), responses)
    case None =>
      assert FirstInSlotAt(r, claimId, questionId, |responses|);
    case Some(k) =>
      assert FirstInSlotAt(responses, claimId, questionId, k);
      RestampKeepsSlots(responses, responses[k].id, value, now);
      assert FirstInSlotAt(r, claimId, questionId, k);
  }

  /** An update never gives a claim a second response to the same
      question. */
  lemma UpdateKeepsSlotsUnique(responses: seq<WorkflowResponse>, selected: Option<string>, questions: seq<Question>,
                               questionId: string, value: ResponseValue, freshId: string, now: int)
    requires SlotsUnique(responses)
    ensures SlotsUnique(HandleResponseUpdate(responses, selected, questions, questionId, value, freshId, now))
  {
    var r := HandleResponseUpdate(responses, selected, questions, questionId, value, freshId, now);
    if IsTruthy(selected) && FindQuestion(questions, questionId).Some? {
      var claimId := selected.value;
      FindInSlotFirst(responses, claimId, questionId);
      match FindInSlot(responses, claimId, questionId)
      case Some(existing) =>
        RestampKeepsSlots(responses, existing.id, value, now);
      case None =>
        forall i, j | 0 <= i < j < |r|
          ensures !InSlot(r[j], r[i].claimId, r[i].questionId)
        {
          if j < |responses| {
            assert r[i] == responses[i] && r[j] == responses[j];
          } else {
            assert r[i] == responses[i];
            assert !InSlot(responses[i], claimId, questionId);
          }
        }
    }
  }

  /** With a fresh id not used before, an update keeps response ids
      unique. */
  lemma UpdateKeepsIdsUnique(responses: seq<WorkflowResponse>, selected: Option<string>, questions: seq<Question>,
                             questionId: string, value: ResponseValue, freshId: string, now: int)
    requires IdsUnique(responses)
    requires forall x :: x in responses ==> x.id != freshId
    ensures IdsUnique(HandleResponseUpdate(responses, selected, questions, questionId, value, freshId, now))
  {
    var r := HandleResponseUpdate(responses, selected, questions, questionId, value, freshId, now);
    if |r| == |responses| + 1 {
      forall i, j | 0 <= i < j < |r|
        ensures r[i].id != r[j].id
      {
        assert r[i] == responses[i];
        if j < |responses| {
          assert r[j] == responses[j];
        }
      }
    }
  }

  /** The response the form shows for a question of the selected claim is
      the value of that claim's first response to it. */
  lemma {:induction false} FormSeesFirstInSlot(responses: seq<WorkflowResponse>, claimId: string, questionId: string, k: int)
    requires FirstInSlotAt(responses, claimId, questionId, k)
    ensures WorkflowForm.GetResponse(ClaimResponses(responses, Some(claimId)), questionId) == responses[k].responseValue
  {
    var mine := ClaimResponses(responses, Some(claimId));
    var rest := ClaimResponses(responses[1..], Some(claimId));
    assert responses == [responses[0]] + responses[1..];
    if k == 0 {
      assert mine == [responses[0]] + rest;
      assert WorkflowForm.FirstResponseAt(mine, questionId, 0);
    } else {
      FormSeesFirstInSlot(responses[1..], claimId, questionId, k - 1);
      if responses[0].claimId == claimId {
        assert mine == [responses[0]] + rest;
        ShownResponseSkipsOther(responses[0], rest, questionId);
      } else {
        assert mine == rest;
      }
    }
  }

  /** A response to another question in front does not change what the form
      shows. */
  lemma ShownResponseSkipsOther(x: WorkflowResponse, rs: seq<WorkflowResponse>, questionId: string)
    requires x.questionId != questionId
    ensures WorkflowForm.GetResponse([x] + rs, questionId) == WorkflowForm.GetResponse(rs, questionId)
  {
    var p := (r: WorkflowResponse) => r.questionId == questionId;
    match FindIndex(p, rs)
    case None =>
      assert forall j :: 0 <= j < |[x] + rs| ==> ([x] + rs)[j].questionId != questionId by {
        forall j | 0 <= j < |[x] + rs| ensures ([x] + rs)[j].questionId != questionId {
          if j > 0 { assert ([x] + rs)[j] == rs[j - 1]; }
        }
      }
    case Some(k) =>
      assert WorkflowForm.FirstResponseAt(rs, questionId, k);
      assert WorkflowForm.FirstResponseAt([x] + rs, questionId, k + 1) by {
        forall j | 0 <= j < k + 1 ensures ([x] + rs)[j].questionId != questionId {
          if j > 0 { assert ([x] + rs)[j] == rs[j - 1]; }
        }
      }
  }

  /** After an update for the selected claim, the form shows the new value
      for the question. */
  lemma FormShowsUpdatedValue(responses: seq<WorkflowResponse>, claimId: string, questions: seq<Question>,
                              questionId: string, value: ResponseValue, freshId: string, now: int)
    requires claimId != ""
    requires exists q :: q in questions && q.id == questionId
    ensures var r := HandleResponseUpdate(responses, Some(claimId), questions, questionId, value, freshId, now);
      WorkflowForm.GetResponse(ClaimResponses(r, Some(claimId)), questionId) == value
  {
    var r := HandleResponseUpdate(responses, Some(claimId), questions, questionId, value, freshId, now);
    UpdateStoresValue(responses, claimId, questions, questionId, value, freshId, now);
    var k :| FirstInSlotAt(r, claimId, questionId, k) && r[k].responseValue == value;
    FormSeesFirstInSlot(r, claimId, questionId, k);
  }

  /** The sample responses have distinct ids and at most one response per
      claim and question. */
  lemma SampleResponsesUnique()
    ensures IdsUnique(SampleWorkflowResponses)
    ensures SlotsUnique(SampleWorkflowResponses)
  {
  }
}
