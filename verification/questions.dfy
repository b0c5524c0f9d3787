/** The questionnaire data of lib/data/questions.ts: question and response
    records, and the sample questions and responses with the facts the
    workflow engine relies on. */
module Questions {
  import opened Seqs

  datatype QuestionType = Text | Select | Multiselect | Textarea | DateTime | Checkbox | File

  datatype ColorCode = Yellow | Blue | Green | Orange | Red

  /** The `value` of a `showIf` condition: one string, or a list of allowed
      strings. */
  datatype ConditionValue = Exactly(value: string) | OneOf(values: seq<string>)

  /** One `showIf` entry: the question it looks at and the value it wants. */
  datatype Condition = Condition(questionId: string, value: ConditionValue)

  datatype Question = Question(
    id: string,
    questionText: string,
    questionType: QuestionType,
    parentQuestionId: Option<string>,
    hierarchyLevel: int,
    sectionName: string,
    displayOrder: int,
    /** `conditionalLogic.showIf`, absent when the question is unconditional. */
    conditionalLogic: Option<seq<Condition>>,
    colorCode: ColorCode,
    isRequired: bool,
    dropdownOptions: Option<seq<string>>)

  /** A response value: a string, or the list of ticked options of a
      multiselect question. */
  datatype ResponseValue = Single(text: string) | Multi(items: seq<string>)

  datatype WorkflowResponse = WorkflowResponse(
    id: string,
    claimId: string,
    questionId: string,
    questionText: string,
    responseValue: ResponseValue,
    parentQuestionId: Option<string>,
    hierarchyLevel: int,
    sectionName: string,
    respondedBy: string,
    /** Milliseconds since the epoch. */
    respondedAt: int)

  /** The sample questionnaire, one constant per section in the order the
      sections are listed. */
  const ClaimRepresentationSection: seq<Question> := [
    Question("claim_rep_001", "Is Claim Represented", Select, None, 1, "Claim Representation", 1, None, Yellow, true,
      Some(["Yes - Attorney Represented", "Yes - Public Adjuster Represented",
            "Yes - Attorney and Public Adjuster Attorney", "No - Claim is not represented."]))
  ]

  const SetupSection: seq<Question> := [
    Question("setup_001", "Date and time of first customer contact", DateTime, None, 1, "Setup & First Contact", 2, None, Yellow, true, None),
    Question("setup_002", "Method of first contact", Select, None, 1, "Setup & First Contact", 3, None, Yellow, true,
      Some(["Phone Call", "Email", "Text Message", "In Person"])),
    Question("setup_003", "Customer response to first contact", Select, None, 1, "Setup & First Contact", 4, None, Yellow, true,
      Some(["Answered", "Voicemail Left", "No Answer", "Busy Signal", "Invalid Number"])),
    Question("setup_004", "If voicemail left, provide details", Textarea, Some("setup_003"), 2, "Setup & First Contact", 5,
      Some([Condition("setup_003", OneOf(["Voicemail Left"]))]), Blue, false, None)
  ]

  const ContactSection: seq<Question> := [
    Question("contact_001", "Is the policyholder represented by a public adjuster?", Select, None, 1, "Customer Contact & Representation", 6, None, Yellow, true,
      Some(["Yes", "No", "Unknown"])),
    Question("contact_002", "Public adjuster company name", Text, Some("contact_001"), 2, "Customer Contact & Representation", 7,
      Some([Condition("contact_001", OneOf(["Yes"]))]), Blue, true, None),
    Question("contact_003", "Public adjuster contact information", Textarea, Some("contact_001"), 2, "Customer Contact & Representation", 8,
      Some([Condition("contact_001", OneOf(["Yes"]))]), Blue, true, None),
    Question("contact_004", "Is the policyholder represented by an attorney?", Select, None, 1, "Customer Contact & Representation", 9, None, Yellow, true,
      Some(["Yes", "No", "Unknown"])),
    Question("contact_005", "Attorney contact information", Textarea, Some("contact_004"), 2, "Customer Contact & Representation", 10,
      Some([Condition("contact_004", OneOf(["Yes"]))]), Blue, true, None)
  ]

  const EagleViewSection: seq<Question> := [
    Question("eagle_001", "Is EagleView report required for this claim?", Select, None, 1, "EagleView Requirements", 11, None, Yellow, true,
      Some(["Yes", "No", "Pending Determination"])),
    Question("eagle_002", "EagleView report request date", DateTime, Some("eagle_001"), 2, "EagleView Requirements", 12,
      Some([Condition("eagle_001", OneOf(["Yes"]))]), Blue, true, None),
    Question("eagle_003", "EagleView report status", Select, Some("eagle_001"), 2, "EagleView Requirements", 13,
      Some([Condition("eagle_001", OneOf(["Yes"]))]), Blue, true,
      Some(["Requested", "In Progress", "Completed", "Failed - Retry Needed", "Not Available"]))
  ]

  const LadderAssistSection: seq<Question> := [
    Question("ladder_001", "Is ladder assist required for inspection?", Select, None, 1, "Ladder Assist Approval", 14, None, Yellow, true,
      Some(["Yes", "No", "To Be Determined"])),
    Question("ladder_002", "Reason for ladder assist requirement", Multiselect, Some("ladder_001"), 2, "Ladder Assist Approval", 15,
      Some([Condition("ladder_001", OneOf(["Yes"]))]), Blue, true,
      Some(["Safety Concerns", "Height Restrictions", "Equipment Requirements", "Property Access Issues", "Other"])),
    Question("ladder_003", "Ladder assist approval status", Select, Some("ladder_001"), 2, "Ladder Assist Approval", 16,
      Some([Condition("ladder_001", OneOf(["Yes"]))]), Blue, true,
      Some(["Pending Approval", "Approved", "Denied", "Alternative Solution Required"]))
  ]

  const InspectionSection: seq<Question> := [
    Question("inspect_001", "Initial inspection date and time", DateTime, None, 1, "Inspection Scheduling", 17, None, Yellow, true, None),
    Question("inspect_002", "Inspection type", Select, None, 1, "Inspection Scheduling", 18, None, Yellow, true,
      Some(["Interior Only", "Exterior Only", "Interior & Exterior", "Remote/Virtual", "Re-inspection"])),
    Question("inspect_003", "Special access requirements", Multiselect, None, 1, "Inspection Scheduling", 19, None, Blue, false,
      Some(["Key Required", "Tenant Coordination", "Business Hours Only", "Security System", "Pet Present", "None"]))
  ]

  const DocumentationSection: seq<Question> := [
    Question("doc_001", "Required documentation checklist", Multiselect, None, 1, "Documentation Requirements", 20, None, Yellow, true,
      Some(["Policy Declaration Page", "Proof of Loss", "Contractor Estimates", "Photos of Damage", "Weather Report",
            "Police Report (if applicable)", "Receipts for Temporary Repairs"])),
    Question("doc_002", "Missing documentation items", Multiselect, None, 2, "Documentation Requirements", 21, None, Orange, false,
      Some(["Policy Declaration Page", "Proof of Loss", "Contractor Estimates", "Photos of Damage", "Weather Report",
            "Police Report", "Receipts for Temporary Repairs"]))
  ]

  const QaReviewSection: seq<Question> := [
    Question("qa_001", "Initial estimate completion status", Select, None, 1, "QA Review Process", 22, None, Yellow, true,
      Some(["Complete", "In Progress", "Pending Information", "On Hold"])),
    Question("qa_002", "QA review required?", Select, None, 1, "QA Review Process", 23, None, Yellow, true,
      Some(["Yes - Standard Review", "Yes - Complex Claim Review", "No - Standard Processing", "Escalated Review Required"])),
    Question("qa_003", "QA reviewer assigned", Select, Some("qa_002"), 2, "QA Review Process", 24,
      Some([Condition("qa_002", OneOf(["Yes - Standard Review", "Yes - Complex Claim Review", "Escalated Review Required"]))]), Blue, true,
      Some(["Manager 1", "Manager 2", "Senior Reviewer", "External QA Team"]))
  ]

  const StatusSection: seq<Question> := [
    Question("status_001", "Current claim status", Select, None, 1, "Status Reporting", 25, None, Yellow, true,
      Some(["Initial Contact Made", "Inspection Scheduled", "Inspection Complete", "Estimate In Progress", "Estimate Complete",
            "Under Review", "Approved", "Denied", "Closed"])),
    Question("status_002", "Next action required", Select, None, 1, "Status Reporting", 26, None, Yellow, true,
      Some(["Schedule Inspection", "Complete Documentation", "Submit for QA Review", "Await Customer Response",
            "Process Payment", "Close Claim", "Escalate to Manager"])),
    Question("status_003", "Estimated completion date", DateTime, None, 1, "Status Reporting", 27, None, Blue, true, None)
  ]

  /** `sampleQuestions`: the sections one after another. */
  const SampleQuestions: seq<Question> :=
    ClaimRepresentationSection + SetupSection + ContactSection + EagleViewSection + LadderAssistSection
    + InspectionSection + DocumentationSection + QaReviewSection + StatusSection

  /** 2025-01-10T14:30:00Z and 2025-01-10T16:00:00Z. */
  const FirstContactAnswered: int := 1_736_519_400_000
  const RepresentationAnswered: int := 1_736_524_800_000

  const SampleWorkflowResponses: seq<WorkflowResponse> := [
    WorkflowResponse("resp_001", "1", "setup_001", "Date and time of first customer contact",
      Single("2025-01-10T14:30:00Z"), None, 1, "Setup & First Contact", "Sarah Johnson", FirstContactAnswered),
    WorkflowResponse("resp_002", "1", "setup_002", "Method of first contact",
      Single("Phone Call"), None, 1, "Setup & First Contact", "Sarah Johnson", FirstContactAnswered),
    WorkflowResponse("resp_003", "1", "setup_003", "Customer response to first contact",
      Single("Answered"), None, 1, "Setup & First Contact", "Sarah Johnson", FirstContactAnswered),
    WorkflowResponse("resp_004", "2", "contact_001", "Is the policyholder represented by a public adjuster?",
      Single("No"), None, 1, "Customer Contact & Representation", "Mike Rodriguez", RepresentationAnswered)
  ]

  /** The conditions of a question; none for an unconditional one. */
  function Conditions(q: Question): seq<Condition> {
    if q.conditionalLogic.Some? then q.conditionalLogic.value else []
  }

  /** The allowed strings of a condition. */
  function ConditionValues(c: Condition): seq<string> {
    match c.value
    case Exactly(v) => [v]
    case OneOf(vs) => vs
  }

  /** The options of a question; none when it lists no options. */
  function Options(q: Question): seq<string> {
    if q.dropdownOptions.Some? then q.dropdownOptions.value else []
  }


  /** A question that both hangs under a parent and is conditional is
      conditional on that parent. */
  predicate ParentMatchesCondition(q: Question) {
    q.parentQuestionId.Some? && q.conditionalLogic.Some? ==>
      forall c :: c in Conditions(q) ==> c.questionId == q.parentQuestionId.value
  }

  /** Select and multiselect questions offer at least one option. */
  predicate ChoiceHasOptions(q: Question) {
    (q.questionType == Select || q.questionType == Multiselect) ==> |Options(q)| > 0
  }

  /** `target` is the question `c` looks at: same section as the conditional
      question `q`, and every value `c` accepts is one of its options. */
  predicate Resolves(target: Question, q: Question, c: Condition) {
    && target.id == c.questionId
    && target.sectionName == q.sectionName
    && forall v :: v in ConditionValues(c) ==> v in Options(target)
  }

  predicate IdsDistinct(qs: seq<Question>) {
    forall i, j :: 0 <= i < j < |qs| ==> qs[i].id != qs[j].id
  }

  predicate OrdersFrom(qs: seq<Question>, first: int) {
    forall i :: 0 <= i < |qs| ==> qs[i].displayOrder == first + i
  }

  /** Every condition is resolved by an earlier question. */
  predicate ConditionsResolved(qs: seq<Question>) {
    forall i, c :: 0 <= i < |qs| && c in Conditions(qs[i]) ==>
      exists j :: 0 <= j < i && Resolves(qs[j], qs[i], c)
  }

  predicate EachQuestionWellFormed(qs: seq<Question>) {
    forall i :: 0 <= i < |qs| ==> ParentMatchesCondition(qs[i]) && ChoiceHasOptions(qs[i])
  }

  /** The first two characters of an id name its section. */
  predicate HasTag(q: Question, tag: string) {
    |tag| == 2 && IsPrefix(tag, q.id)
  }

  /** The facts a section of the sample relies on; `tag` starts every id. */
  predicate WellFormedSection(sec: seq<Question>, tag: string) {
    && (forall i :: 0 <= i < |sec| ==> HasTag(sec[i], tag))
    && IdsDistinct(sec)
    && ConditionsResolved(sec)
    && EachQuestionWellFormed(sec)
  }

  /** The facts the questionnaire relies on for a whole question list. */
  predicate FixtureInvariants(qs: seq<Question>) {
    && IdsDistinct(qs)
    && OrdersFrom(qs, 1)
    && ConditionsResolved(qs)
    && EachQuestionWellFormed(qs)
  }

  /** Every id starts with one of `tags`. */
  predicate TagsAmong(qs: seq<Question>, tags: set<string>) {
    forall i :: 0 <= i < |qs| ==> |qs[i].id| >= 2 && qs[i].id[..2] in tags
  }

  lemma ConcatResolved(a: seq<Question>, b: seq<Question>)
    requires ConditionsResolved(a) && ConditionsResolved(b)
    ensures ConditionsResolved(a + b)
  {
    var ab := a + b;
    forall i, c | 0 <= i < |ab| && c in Conditions(ab[i])
      ensures exists j :: 0 <= j < i && Resolves(ab[j], ab[i], c)
    {
      if i < |a| {
        assert ab[i] == a[i];
        var j :| 0 <= j < i && Resolves(a[j], a[i], c);
        assert ab[j] == a[j];
      } else {
        assert ab[i] == b[i - |a|];
        var j :| 0 <= j < i - |a| && Resolves(b[j], b[i - |a|], c);
        assert ab[j + |a|] == b[j];
      }
    }
  }

  /** Appending a well-formed section whose tag is new and whose display
      orders continue the list keeps the list well-formed. */
  lemma AppendSection(a: seq<Question>, tags: set<string>, b: seq<Question>, tag: string)
    requires FixtureInvariants(a) && TagsAmong(a, tags)
    requires WellFormedSection(b, tag) && OrdersFrom(b, |a| + 1) && tag !in tags
    ensures FixtureInvariants(a + b) && TagsAmong(a + b, tags + {tag})
  {
    var ab := a + b;
    ConcatResolved(a, b);
    forall i, j | 0 <= i < j < |ab|
      ensures ab[i].id != ab[j].id
    {
      if j < |a| {
        assert ab[i] == a[i] && ab[j] == a[j];
      } else if i >= |a| {
        assert ab[i] == b[i - |a|] && ab[j] == b[j - |a|];
      } else {
        assert ab[i] == a[i] && ab[j] == b[j - |a|];
        assert ab[i].id[..2] in tags && ab[j].id[..2] == tag;
      }
    }
    forall i | 0 <= i < |ab|
      ensures ab[i].displayOrder == 1 + i
      ensures ParentMatchesCondition(ab[i]) && ChoiceHasOptions(ab[i])
      ensures |ab[i].id| >= 2 && ab[i].id[..2] in tags + {tag}
    {
      if i < |a| {
        assert ab[i] == a[i];
      } else {
        assert ab[i] == b[i - |a|];
      }
    }
  }

  // Each section is checked on its own: element-wise shape (id tag, display
  // order, parent link, options) and links between its questions (distinct
  // ids, conditions resolved by an earlier question of the section).

  lemma ClaimRepresentationShape()
    ensures forall i :: 0 <= i < |ClaimRepresentationSection| ==> HasTag(ClaimRepresentationSection[i], "cl")
    ensures OrdersFrom(ClaimRepresentationSection, 1) && EachQuestionWellFormed(ClaimRepresentationSection)
  {
  }

  lemma ClaimRepresentationLinks()
    ensures IdsDistinct(ClaimRepresentationSection) && ConditionsResolved(ClaimRepresentationSection)
  {
  }

  lemma SetupShape()
    ensures forall i :: 0 <= i < |SetupSection| ==> HasTag(SetupSection[i], "se")
    ensures OrdersFrom(SetupSection, 2) && EachQuestionWellFormed(SetupSection)
  {
  }

  lemma SetupLinks()
    ensures IdsDistinct(SetupSection) && ConditionsResolved(SetupSection)
  {
    assert Resolves(SetupSection[2], SetupSection[3], Conditions(SetupSection[3])[0]);
  }

  lemma ContactShape()
    ensures forall i :: 0 <= i < |ContactSection| ==> HasTag(ContactSection[i], "co")
    ensures OrdersFrom(ContactSection, 6) && EachQuestionWellFormed(ContactSection)
  {
  }

  lemma ContactIdsDistinct()
    ensures IdsDistinct(ContactSection)
  {
  }

  lemma ContactLinks()
    ensures IdsDistinct(ContactSection) && ConditionsResolved(ContactSection)
  {
    ContactIdsDistinct();
    assert Resolves(ContactSection[0], ContactSection[1], Conditions(ContactSection[1])[0]);
    assert Resolves(ContactSection[0], ContactSection[2], Conditions(ContactSection[2])[0]);
    assert Resolves(ContactSection[3], ContactSection[4], Conditions(ContactSection[4])[0]);
  }

  lemma EagleViewShape()
    ensures forall i :: 0 <= i < |EagleViewSection| ==> HasTag(EagleViewSection[i], "ea")
    ensures OrdersFrom(EagleViewSection, 11) && EachQuestionWellFormed(EagleViewSection)
  {
  }

  lemma EagleViewLinks()
    ensures IdsDistinct(EagleViewSection) && ConditionsResolved(EagleViewSection)
  {
    assert Resolves(EagleViewSection[0], EagleViewSection[1], Conditions(EagleViewSection[1])[0]);
    assert Resolves(EagleViewSection[0], EagleViewSection[2], Conditions(EagleViewSection[2])[0]);
  }

  lemma LadderAssistShape()
    ensures forall i :: 0 <= i < |LadderAssistSection| ==> HasTag(LadderAssistSection[i], "la")
    ensures OrdersFrom(LadderAssistSection, 14) && EachQuestionWellFormed(LadderAssistSection)
  {
  }

  lemma LadderAssistLinks()
    ensures IdsDistinct(LadderAssistSection) && ConditionsResolved(LadderAssistSection)
  {
    assert Resolves(LadderAssistSection[0], LadderAssistSection[1], Conditions(LadderAssistSection[1])[0]);
    assert Resolves(LadderAssistSection[0], LadderAssistSection[2], Conditions(LadderAssistSection[2])[0]);
  }

  lemma InspectionShape()
    ensures forall i :: 0 <= i < |InspectionSection| ==> HasTag(InspectionSection[i], "in")
    ensures OrdersFrom(InspectionSection, 17) && EachQuestionWellFormed(InspectionSection)
  {
  }

  lemma InspectionLinks()
    ensures IdsDistinct(InspectionSection) && ConditionsResolved(InspectionSection)
  {
  }

  lemma DocumentationShape()
    ensures forall i :: 0 <= i < |DocumentationSection| ==> HasTag(DocumentationSection[i], "do")
    ensures OrdersFrom(DocumentationSection, 20) && EachQuestionWellFormed(DocumentationSection)
  {
  }

  lemma DocumentationLinks()
    ensures IdsDistinct(DocumentationSection) && ConditionsResolved(DocumentationSection)
  {
  }

  lemma QaReviewShape()
    ensures forall i :: 0 <= i < |QaReviewSection| ==> HasTag(QaReviewSection[i], "qa")
    ensures OrdersFrom(QaReviewSection, 22) && EachQuestionWellFormed(QaReviewSection)
  {
  }

  lemma QaReviewLinks()
    ensures IdsDistinct(QaReviewSection) && ConditionsResolved(QaReviewSection)
  {
    assert Resolves(QaReviewSection[1], QaReviewSection[2], Conditions(QaReviewSection[2])[0]);
  }

  lemma StatusShape()
    ensures forall i :: 0 <= i < |StatusSection| ==> HasTag(StatusSection[i], "st")
    ensures OrdersFrom(StatusSection, 25) && EachQuestionWellFormed(StatusSection)
  {
  }

  lemma StatusLinks()
    ensures IdsDistinct(StatusSection) && ConditionsResolved(StatusSection)
  {
  }

  /** The first four sections. */
  lemma LeadingSectionsInvariants()
    ensures FixtureInvariants(ClaimRepresentationSection + SetupSection + ContactSection + EagleViewSection)
    ensures TagsAmong(ClaimRepresentationSection + SetupSection + ContactSection + EagleViewSection,
      {"cl"} + {"se"} + {"co"} + {"ea"})
  {
    ClaimRepresentationShape(); ClaimRepresentationLinks();
    assert TagsAmong(ClaimRepresentationSection, {"cl"});
    SetupShape(); SetupLinks();
    AppendSection(ClaimRepresentationSection,
      {"cl"}, SetupSection, "se");
    ContactShape(); ContactLinks();
    AppendSection(ClaimRepresentationSection + SetupSection,
      {"cl"} + {"se"}, ContactSection, "co");
    EagleViewShape(); EagleViewLinks();
    AppendSection(ClaimRepresentationSection + SetupSection + ContactSection,
      {"cl"} + {"se"} + {"co"}, EagleViewSection, "ea");
  }

  /** The first seven sections. */
  lemma MiddleSectionsInvariants()
    ensures FixtureInvariants(ClaimRepresentationSection + SetupSection + ContactSection + EagleViewSection + LadderAssistSection + InspectionSection + DocumentationSection)
    ensures TagsAmong(ClaimRepresentationSection + SetupSection + ContactSection + EagleViewSection + LadderAssistSection + InspectionSection + DocumentationSection,
      {"cl"} + {"se"} + {"co"} + {"ea"} + {"la"} + {"in"} + {"do"})
  {
    LeadingSectionsInvariants();
    LadderAssistShape(); LadderAssistLinks();
    AppendSection(ClaimRepresentationSection + SetupSection + ContactSection + EagleViewSection,
      {"cl"} + {"se"} + {"co"} + {"ea"}, LadderAssistSection, "la");
    InspectionShape(); InspectionLinks();
    AppendSection(ClaimRepresentationSection + SetupSection + ContactSection + EagleViewSection + LadderAssistSection,
      {"cl"} + {"se"} + {"co"} + {"ea"} + {"la"}, InspectionSection, "in");
    DocumentationShape(); DocumentationLinks();
    AppendSection(ClaimRepresentationSection + SetupSection + ContactSection + EagleViewSection + LadderAssistSection + InspectionSection,
      {"cl"} + {"se"} + {"co"} + {"ea"} + {"la"} + {"in"}, DocumentationSection, "do");
  }

  /** The sample questionnaire: 27 questions with distinct ids, display
      orders 1 to 27 in list order, every condition resolved by an earlier
      question of the same section whose options include the accepted values,
      parent links that agree with the conditions, and options for every
      choice question. */
  lemma SampleQuestionsInvariants()
    ensures |SampleQuestions| == 27
    ensures FixtureInvariants(SampleQuestions)
  {
    MiddleSectionsInvariants();
    QaReviewShape(); QaReviewLinks();
    AppendSection(ClaimRepresentationSection + SetupSection + ContactSection + EagleViewSection + LadderAssistSection + InspectionSection + DocumentationSection,
      {"cl"} + {"se"} + {"co"} + {"ea"} + {"la"} + {"in"} + {"do"}, QaReviewSection, "qa");
    StatusShape(); StatusLinks();
    AppendSection(ClaimRepresentationSection + SetupSection + ContactSection + EagleViewSection + LadderAssistSection + InspectionSection + DocumentationSection + QaReviewSection,
      {"cl"} + {"se"} + {"co"} + {"ea"} + {"la"} + {"in"} + {"do"} + {"qa"}, StatusSection, "st");
  }

  /** `r` is an answer to `q`: it copies the question's text, section, level
      and parent, and an answer to a select question is one of its options. */
  predicate Answers(r: WorkflowResponse, q: Question) {
    && q.id == r.questionId
    && q.questionText == r.questionText
    && q.sectionName == r.sectionName
    && q.hierarchyLevel == r.hierarchyLevel
    && q.parentQuestionId == r.parentQuestionId
    && (q.questionType == Select ==> r.responseValue.Single? && r.responseValue.text in Options(q))
  }

  /** The sample responses answer the second, third and fourth setup
      questions and the first contact question. */
  lemma SampleResponsesAnswerListedQuestions()
    ensures Answers(SampleWorkflowResponses[0], SampleQuestions[1])
    ensures Answers(SampleWorkflowResponses[1], SampleQuestions[2])
    ensures Answers(SampleWorkflowResponses[2], SampleQuestions[3])
    ensures Answers(SampleWorkflowResponses[3], SampleQuestions[5])
  {
    var qs := SampleQuestions;
    assert qs[1] == SetupSection[0] && qs[2] == SetupSection[1] && qs[3] == SetupSection[2];
    assert qs[5] == ContactSection[0];
  }

  /** Two sample questions with the same id are the same question. */
  lemma SameIdSameQuestion(i: int, k: int)
    requires 0 <= i < |SampleQuestions| && 0 <= k < |SampleQuestions|
    requires SampleQuestions[i].id == SampleQuestions[k].id
    ensures i == k
  {
    SampleQuestionsInvariants();
    assert IdsDistinct(SampleQuestions);
  }

  /** Every sample response answers an existing sample question, and the
      question with its id is the one it answers. */
  lemma SampleResponsesAnswerQuestions()
    ensures forall r :: r in SampleWorkflowResponses ==> exists q :: q in SampleQuestions && Answers(r, q)
    ensures forall r, q :: r in SampleWorkflowResponses && q in SampleQuestions && q.id == r.questionId ==> Answers(r, q)
  {
    SampleResponsesAnswerListedQuestions();
    var qs, rs := SampleQuestions, SampleWorkflowResponses;
    var at := [1, 2, 3, 5];
    forall r, q | r in rs && q in qs && q.id == r.questionId
      ensures Answers(r, q)
    {
      var i :| 0 <= i < |qs| && qs[i] == q;
      var n :| 0 <= n < |rs| && rs[n] == r;
      SameIdSameQuestion(i, at[n]);
    }
  }
}
