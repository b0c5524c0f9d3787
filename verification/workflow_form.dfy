/** The conditional questionnaire engine of
    components/workflow/workflow-form.tsx: which questions are visible given
    the answers so far, what a question's current answer is, how complete a
    section is, which sections are expanded, and how the questions are
    grouped into sections. `responses` is the list the form receives, i.e.
    the responses of the selected claim. */
module WorkflowForm {
  import opened Seqs
  import opened Questions
  import Sorting

  datatype SectionStatus = Complete | Partial | Pending

  /** `responses.find(r => r.questionId === questionId)`. */
  function FindResponse(responses: seq<WorkflowResponse>, questionId: string): Option<WorkflowResponse> {
    Find((r: WorkflowResponse) => r.questionId == questionId, responses)
  }

  /** `k` is the position of the first response to `questionId`. */
  predicate FirstResponseAt(responses: seq<WorkflowResponse>, questionId: string, k: int) {
    && 0 <= k < |responses|
    && responses[k].questionId == questionId
    && forall j :: 0 <= j < k ==> responses[j].questionId != questionId
  }

  /** Whether a response value meets what a condition asks for. A list value
      (a multiselect answer) is never equal to a string, so it meets no
      condition. */
  predicate Matches(c: Condition, v: ResponseValue) {
    match c.value
    case OneOf(vs) => v.Single? && v.text in vs
    case Exactly(x) => v == Single(x)
  }

  /** One `showIf` entry, judged against the first response to the question
      it looks at; no response means the condition fails. */
  predicate ConditionHolds(c: Condition, responses: seq<WorkflowResponse>) {
    match FindResponse(responses, c.questionId)
    case None => false
    case Some(r) => Matches(c, r.responseValue)
  }

  /** A question is visible when it has no conditional logic, or when every
      one of its conditions holds. */
  predicate IsVisible(q: Question, responses: seq<WorkflowResponse>) {
    match q.conditionalLogic
    case None => true
    case Some(conds) => forall i :: 0 <= i < |conds| ==> ConditionHolds(conds[i], responses)
  }

  /** `getVisibleQuestions`. */
  function VisibleQuestions(sectionQuestions: seq<Question>, responses: seq<WorkflowResponse>): (r: seq<Question>)
    ensures IsSubsequence(r, sectionQuestions)
    ensures forall q :: q in r <==> q in sectionQuestions && IsVisible(q, responses)
  {
    Filter((q: Question) => IsVisible(q, responses), sectionQuestions)
  }

  /** There is at most one first response to a question. */
  lemma FirstResponseUnique(responses: seq<WorkflowResponse>, questionId: string, k: int, k': int)
    requires FirstResponseAt(responses, questionId, k)
    requires FirstResponseAt(responses, questionId, k')
    ensures k == k'
  {
  }

  /** `FindResponse` returns the first response to the question, and finds
      nothing exactly when nobody answered it. */
  lemma FindResponseFirst(responses: seq<WorkflowResponse>, questionId: string)
    ensures FindResponse(responses, questionId).None? <==>
      forall j :: 0 <= j < |responses| ==> responses[j].questionId != questionId
    ensures forall k :: FirstResponseAt(responses, questionId, k) ==>
      FindResponse(responses, questionId) == Some(responses[k])
  {
    var p := (r: WorkflowResponse) => r.questionId == questionId;
    match FindIndex(p, responses)
    case None =>
    case Some(k) =>
      assert forall j :: 0 <= j < k ==> responses[j].questionId != questionId;
      assert FirstResponseAt(responses, questionId, k);
      forall k' | FirstResponseAt(responses, questionId, k')
        ensures FindResponse(responses, questionId) == Some(responses[k'])
      {
        FirstResponseUnique(responses, questionId, k, k');
      }
  }

  /** A condition holds exactly when the first response to the question it
      looks at matches it: membership for a list of values, equality for a
      single value, and never for a list-valued response. */
  lemma ConditionHoldsIff(c: Condition, responses: seq<WorkflowResponse>)
    ensures ConditionHolds(c, responses) <==>
      exists k :: FirstResponseAt(responses, c.questionId, k) &&
        match c.value
        case OneOf(vs) => responses[k].responseValue.Single? && responses[k].responseValue.text in vs
        case Exactly(x) => responses[k].responseValue == Single(x)
  {
    FindResponseFirst(responses, c.questionId);
    if FindResponse(responses, c.questionId).Some? {
      var k := FindIndex((r: WorkflowResponse) => r.questionId == c.questionId, responses).value;
      assert FirstResponseAt(responses, c.questionId, k);
    }
  }

  /** A condition on a question nobody has answered hides the question that
      carries it. */
  lemma UnansweredConditionHides(q: Question, sectionQuestions: seq<Question>, responses: seq<WorkflowResponse>, i: nat)
    requires q.conditionalLogic.Some? && i < |q.conditionalLogic.value|
    requires forall r :: r in responses ==> r.questionId != q.conditionalLogic.value[i].questionId
    ensures q !in VisibleQuestions(sectionQuestions, responses)
  {
    var c := q.conditionalLogic.value[i];
    assert !ConditionHolds(c, responses);
  }

  /** When the first response to the question a condition looks at is a list
      of values, the condition fails, whatever the list holds. */
  lemma ListAnswerMeetsNoCondition(c: Condition, responses: seq<WorkflowResponse>, k: int)
    requires FirstResponseAt(responses, c.questionId, k)
    requires responses[k].responseValue.Multi?
    ensures !ConditionHolds(c, responses)
  {
    FindResponseFirst(responses, c.questionId);
  }

  /** Questions without conditional logic, and questions whose list of
      conditions is empty, are always shown. */
  lemma UnconditionalAlwaysVisible(q: Question, sectionQuestions: seq<Question>, responses: seq<WorkflowResponse>)
    requires q in sectionQuestions
    requires q.conditionalLogic.None? || q.conditionalLogic == Some([])
    ensures q in VisibleQuestions(sectionQuestions, responses)
  {
  }

  /** `getResponse`: the value of the first response to the question, or ''
      when there is none. (The source's `|| ''` also maps a '' value to '',
      which changes nothing.) */
  function GetResponse(responses: seq<WorkflowResponse>, questionId: string): (v: ResponseValue)
    ensures (forall j :: 0 <= j < |responses| ==> responses[j].questionId != questionId) ==> v == Single("")
    ensures forall k :: FirstResponseAt(responses, questionId, k) ==> v == responses[k].responseValue
  {
    match FindResponse(responses, questionId)
    case None => Single("")
    case Some(r) =>
      FindResponseFirst(responses, questionId);
      r.responseValue
  }

  /** A value counts as an answer when it is truthy and not '': a non-empty
      string, or any list (an empty JavaScript array is truthy). */
  predicate IsAnswered(v: ResponseValue) {
    v != Single("")
  }

  predicate Answered(responses: seq<WorkflowResponse>, questionId: string) {
    IsAnswered(GetResponse(responses, questionId))
  }

  /** A question is answered exactly when its first response holds a
      non-empty string or a list, the empty list included. */
  lemma AnsweredIff(responses: seq<WorkflowResponse>, questionId: string)
    ensures Answered(responses, questionId) <==>
      exists k :: FirstResponseAt(responses, questionId, k) &&
        (responses[k].responseValue.Multi? || responses[k].responseValue.text != "")
  {
    match FindIndex((r: WorkflowResponse) => r.questionId == questionId, responses)
    case None =>
    case Some(k) =>
      assert FirstResponseAt(responses, questionId, k);
  }

  /** A visible, required question of the section. */
  predicate RequiredVisible(sectionQuestions: seq<Question>, responses: seq<WorkflowResponse>, q: Question) {
    q in sectionQuestions && IsVisible(q, responses) && q.isRequired
  }

  /** `getSectionStatus`: complete when every visible required question is
      answered (also when there is none), partial when some but not all are,
      pending when none is. */
  function GetSectionStatus(sectionQuestions: seq<Question>, responses: seq<WorkflowResponse>): (r: SectionStatus)
    ensures r == Complete <==>
      forall q :: RequiredVisible(sectionQuestions, responses, q) ==> Answered(responses, q.id)
    ensures r == Partial <==>
      && (exists q :: RequiredVisible(sectionQuestions, responses, q) && Answered(responses, q.id))
      && (exists q :: RequiredVisible(sectionQuestions, responses, q) && !Answered(responses, q.id))
    ensures r == Pending <==>
      && (exists q :: RequiredVisible(sectionQuestions, responses, q) && !Answered(responses, q.id))
      && (forall q :: RequiredVisible(sectionQuestions, responses, q) ==> !Answered(responses, q.id))
  {
    var visible := VisibleQuestions(sectionQuestions, responses);
    var isAnswered := (q: Question) => Answered(responses, q.id);
    var required := Filter((q: Question) => q.isRequired, visible);
    var answeredRequired := Filter(isAnswered, required);
    FilterAll(isAnswered, required);
    FilterEmpty(isAnswered, required);
    assert forall q :: q in required <==> RequiredVisible(sectionQuestions, responses, q);
    if |answeredRequired| == |required| then
      assert forall i :: 0 <= i < |required| ==> isAnswered(required[i]);
      Complete
    else if |answeredRequired| > 0 then
      assert answeredRequired[0] in required;
      Partial
    else
      Pending
  }

  /** The sections shown expanded when the form opens. */
  const InitialExpanded: set<string> := {"Setup & First Contact"}

  /** `toggleSection`: the named section flips between expanded and
      collapsed; every other section keeps its state. */
  function ToggleSection(expanded: set<string>, sectionName: string): (r: set<string>)
    ensures sectionName in r <==> sectionName !in expanded
    ensures forall s :: s != sectionName ==> (s in r <==> s in expanded)
  {
    if sectionName in expanded then expanded - {sectionName} else expanded + {sectionName}
  }

  /** Toggling the same section twice restores the original state. */
  lemma ToggleTwice(expanded: set<string>, sectionName: string)
    ensures ToggleSection(ToggleSection(expanded, sectionName), sectionName) == expanded
  {
  }

  /** Section `a` first appears in `qs` before section `b` does: some
      question of `a` comes before every question of `b`. */
  predicate AppearsBefore(qs: seq<Question>, a: string, b: string) {
    exists k :: 0 <= k < |qs| && qs[k].sectionName == a && forall m :: 0 <= m <= k ==> qs[m].sectionName != b
  }

  lemma AppearsBeforeCons(qs: seq<Question>, a: string, b: string)
    requires |qs| > 0 && qs[0].sectionName != b
    requires AppearsBefore(qs[1..], a, b)
    ensures AppearsBefore(qs, a, b)
  {
    var k :| 0 <= k < |qs[1..]| && qs[1..][k].sectionName == a && forall m :: 0 <= m <= k ==> qs[1..][m].sectionName != b;
    assert qs[k + 1] == qs[1..][k];
    forall m | 0 <= m <= k + 1
      ensures qs[m].sectionName != b
    {
      if m > 0 {
        assert qs[m] == qs[1..][m - 1];
      }
    }
  }

  /** Removing questions that are not of section `b` does not change
      whether `a` appears before `b`, so order in the filtered list carries
      over to the whole list. */
  lemma {:induction false} AppearsBeforeLifts(p: Question -> bool, s: seq<Question>, a: string, b: string)
    requires AppearsBefore(Filter(p, s), a, b)
    requires forall x :: x in s && !p(x) ==> x.sectionName != b
    ensures AppearsBefore(s, a, b)
  {
    if |s| > 0 {
      var t := s[1..];
      var f := Filter(p, s);
      var ft := Filter(p, t);
      assert forall x :: x in t ==> x in s;
      var k :| 0 <= k < |f| && f[k].sectionName == a && forall m :: 0 <= m <= k ==> f[m].sectionName != b;
      if p(s[0]) {
        assert f == [s[0]] + ft;
        if k == 0 {
          assert s[0].sectionName == a && f[0].sectionName != b;
          assert forall m :: 0 <= m <= 0 ==> s[m].sectionName != b;
        } else {
          assert ft[k - 1] == f[k];
          forall m | 0 <= m <= k - 1
            ensures ft[m].sectionName != b
          {
            assert ft[m] == f[m + 1];
          }
          assert AppearsBefore(ft, a, b);
          AppearsBeforeLifts(p, t, a, b);
          assert f[0] == s[0];
          AppearsBeforeCons(s, a, b);
        }
      } else {
        assert f == ft;
        AppearsBeforeLifts(p, t, a, b);
        AppearsBeforeCons(s, a, b);
      }
    }
  }

  /** The first-appearance order of the remaining names carries over when
      the head's section is put in front. */
  lemma SectionNamesOrderStep(qs: seq<Question>, keep: Question -> bool, restNames: seq<string>)
    requires |qs| > 0
    requires forall x :: !keep(x) ==> x.sectionName == qs[0].sectionName
    requires qs[0].sectionName !in restNames
    requires forall i, j :: 0 <= i < j < |restNames| ==> AppearsBefore(Filter(keep, qs[1..]), restNames[i], restNames[j])
    ensures forall i, j :: 0 <= i < j < |[qs[0].sectionName] + restNames| ==>
      AppearsBefore(qs, ([qs[0].sectionName] + restNames)[i], ([qs[0].sectionName] + restNames)[j])
  {
    var names := [qs[0].sectionName] + restNames;
    forall i, j | 0 <= i < j < |names|
      ensures AppearsBefore(qs, names[i], names[j])
    {
      assert names[j] == restNames[j - 1];
      if i == 0 {
        assert qs[0].sectionName == names[0];
        assert forall m :: 0 <= m <= 0 ==> qs[m].sectionName != names[j];
      } else {
        assert names[i] == restNames[i - 1];
        AppearsBeforeLifts(keep, qs[1..], names[i], names[j]);
        AppearsBeforeCons(qs, names[i], names[j]);
      }
    }
  }

  /** The property names every plain object inherits from `Object.prototype`. */
  const PrototypeNames: set<string> := {
    "constructor", "hasOwnProperty", "isPrototypeOf", "propertyIsEnumerable",
    "toLocaleString", "toString", "valueOf", "__proto__",
    "__defineGetter__", "__defineSetter__", "__lookupGetter__", "__lookupSetter__"
  }

  /** A name made only of decimal digits: this covers every array-index key,
      which `Object.keys` lists first, in numeric order. */
  predicate DigitsOnly(name: string) {
    |name| > 0 && forall i :: 0 <= i < |name| ==> '0' <= name[i] <= '9'
  }

  /** A section name the `groups` object keeps as an own key in insertion
      order. An inherited property name makes `!groups[name]` false, so the
      `push` throws instead of grouping. */
  predicate PlainKey(name: string) {
    !DigitsOnly(name) && name !in PrototypeNames
  }

  /** Every question of `qs` has a plain section name. */
  predicate PlainSections(qs: seq<Question>) {
    forall i :: 0 <= i < |qs| ==> PlainKey(qs[i].sectionName)
  }

  lemma PlainSectionsConcat(a: seq<Question>, b: seq<Question>)
    requires PlainSections(a) && PlainSections(b)
    ensures PlainSections(a + b)
  {
    forall i | 0 <= i < |a + b|
      ensures PlainKey((a + b)[i].sectionName)
    {
      if i >= |a| {
        assert (a + b)[i] == b[i - |a|];
      }
    }
  }

  /** A name starting with a capital letter is plain: no inherited property
      name starts with one. */
  lemma CapitalizedIsPlain(name: string)
    requires |name| > 0 && 'A' <= name[0] <= 'Z'
    ensures PlainKey(name)
  {
    assert forall p :: p in PrototypeNames ==> |p| > 0 && !('A' <= p[0] <= 'Z');
  }

  /** A section whose questions all carry one capitalized name. */
  lemma NamedSectionPlain(sec: seq<Question>, name: string)
    requires forall i :: 0 <= i < |sec| ==> sec[i].sectionName == name
    requires |name| > 0 && 'A' <= name[0] <= 'Z'
    ensures PlainSections(sec)
  {
    CapitalizedIsPlain(name);
  }

  /** Each section of the sample questionnaire uses one plain name. */
  lemma EachSectionPlain()
    ensures PlainSections(ClaimRepresentationSection)
    ensures PlainSections(SetupSection)
    ensures PlainSections(ContactSection)
    ensures PlainSections(EagleViewSection)
    ensures PlainSections(LadderAssistSection)
    ensures PlainSections(InspectionSection)
    ensures PlainSections(DocumentationSection)
    ensures PlainSections(QaReviewSection)
    ensures PlainSections(StatusSection)
  {
    NamedSectionPlain(ClaimRepresentationSection, "Claim Representation");
    NamedSectionPlain(SetupSection, "Setup & First Contact");
    NamedSectionPlain(ContactSection, "Customer Contact & Representation");
    NamedSectionPlain(EagleViewSection, "EagleView Requirements");
    NamedSectionPlain(LadderAssistSection, "Ladder Assist Approval");
    NamedSectionPlain(InspectionSection, "Inspection Scheduling");
    NamedSectionPlain(DocumentationSection, "Documentation Requirements");
    NamedSectionPlain(QaReviewSection, "QA Review Process");
    NamedSectionPlain(StatusSection, "Status Reporting");
  }

  /** The sample questionnaire uses plain keys only, so for it the
      first-appearance order of `SectionNames` is the key order of `groups`. */
  lemma SampleSectionNamesPlain()
    ensures PlainSections(SampleQuestions)
  {
    EachSectionPlain();
    PlainSectionsConcat(ClaimRepresentationSection, SetupSection);
    PlainSectionsConcat(ClaimRepresentationSection + SetupSection, ContactSection);
    PlainSectionsConcat(ClaimRepresentationSection + SetupSection + ContactSection, EagleViewSection);
    PlainSectionsConcat(ClaimRepresentationSection + SetupSection + ContactSection + EagleViewSection, LadderAssistSection);
    PlainSectionsConcat(ClaimRepresentationSection + SetupSection + ContactSection + EagleViewSection + LadderAssistSection, InspectionSection);
    PlainSectionsConcat(ClaimRepresentationSection + SetupSection + ContactSection + EagleViewSection + LadderAssistSection + InspectionSection, DocumentationSection);
    PlainSectionsConcat(ClaimRepresentationSection + SetupSection + ContactSection + EagleViewSection + LadderAssistSection + InspectionSection + DocumentationSection, QaReviewSection);
    PlainSectionsConcat(ClaimRepresentationSection + SetupSection + ContactSection + EagleViewSection + LadderAssistSection + InspectionSection + DocumentationSection + QaReviewSection, StatusSection);
  }

  /** The section names in order of first appearance. For plain keys (see
      `PlainKey`) this is the key order of the `groups` object. */
  function SectionNames(qs: seq<Question>): (names: seq<string>)
    ensures Distinct(names)
    ensures forall n :: n in names <==> exists q :: q in qs && q.sectionName == n
    ensures forall i, j :: 0 <= i < j < |names| ==> AppearsBefore(qs, names[i], names[j])
    decreases |qs|
  {
    if |qs| == 0 then []
    else
      var head := qs[0].sectionName;
      var keep := (q: Question) => q.sectionName != head;
      var rest := Filter(keep, qs[1..]);
      var restNames := SectionNames(rest);
      assert head !in restNames;
      assert forall q :: q in qs <==> q == qs[0] || q in qs[1..];
      SectionNamesOrderStep(qs, keep, restNames);
      [head] + restNames
  }

  /** `a` may stay in front of `b`: the comparator
      `a.displayOrder - b.displayOrder` is at most 0. */
  predicate DisplayOrderLeq(a: Question, b: Question) {
    a.displayOrder - b.displayOrder <= 0
  }

  /** The questions of one section, sorted by display order. */
  function SectionGroup(qs: seq<Question>, sectionName: string): seq<Question> {
    Sorting.Sort(Filter((q: Question) => q.sectionName == sectionName, qs), DisplayOrderLeq)
  }

  /** `sectionGroups`: each section name with its sorted questions. */
  function SectionGroups(qs: seq<Question>): (groups: seq<(string, seq<Question>)>)
    ensures |groups| == |SectionNames(qs)|
    ensures forall i :: 0 <= i < |groups| ==> groups[i] == (SectionNames(qs)[i], SectionGroup(qs, SectionNames(qs)[i]))
    ensures forall i, j :: 0 <= i < j < |groups| ==> groups[i].0 != groups[j].0 && AppearsBefore(qs, groups[i].0, groups[j].0)
  {
    var names := SectionNames(qs);
    seq(|names|, i requires 0 <= i < |names| => (names[i], SectionGroup(qs, names[i])))
  }

  lemma DisplayOrderIsPreorder()
    ensures Sorting.TotalPreorder(DisplayOrderLeq)
  {
  }

  /** A section's group holds exactly the questions of that section, each as
      often as in the list, in ascending display order. */
  lemma SectionGroupSorted(qs: seq<Question>, sectionName: string)
    ensures forall q :: q in SectionGroup(qs, sectionName) <==> q in qs && q.sectionName == sectionName
    ensures multiset(SectionGroup(qs, sectionName)) == multiset(Filter((q: Question) => q.sectionName == sectionName, qs))
    ensures forall i, j :: 0 <= i < j < |SectionGroup(qs, sectionName)| ==>
      SectionGroup(qs, sectionName)[i].displayOrder <= SectionGroup(qs, sectionName)[j].displayOrder
  {
    var members := Filter((q: Question) => q.sectionName == sectionName, qs);
    DisplayOrderIsPreorder();
    Sorting.SortSorted(members, DisplayOrderLeq);
    var g := SectionGroup(qs, sectionName);
    forall q ensures q in g <==> q in members {
      assert q in g <==> q in multiset(g);
      assert q in members <==> q in multiset(members);
    }
  }

  /** For the sample questionnaire the grouping is only a split: each group
      lists its section's questions in the order the sample lists them. */
  lemma SampleGroupsKeepListOrder(sectionName: string)
    ensures SectionGroup(SampleQuestions, sectionName) ==
            Filter((q: Question) => q.sectionName == sectionName, SampleQuestions)
  {
    SampleQuestionsInvariants();
    var p := (q: Question) => q.sectionName == sectionName;
    assert Sorting.SortedBy(SampleQuestions, DisplayOrderLeq);
    Sorting.FilterKeepsSorted(p, SampleQuestions, DisplayOrderLeq);
    Sorting.SortOfSorted(Filter(p, SampleQuestions), DisplayOrderLeq);
  }

  /** The sections the form renders: those with at least one visible
      question. */
  function ShownSections(qs: seq<Question>, responses: seq<WorkflowResponse>): (shown: seq<string>)
    ensures forall n :: n in shown <==>
      exists q :: q in qs && q.sectionName == n && IsVisible(q, responses)
  {
    var names := SectionNames(qs);
    var r := Filter((n: string) => |VisibleQuestions(SectionGroup(qs, n), responses)| > 0, names);
    assert forall n :: n in r <==> n in names && |VisibleQuestions(SectionGroup(qs, n), responses)| > 0;
    forall n
      ensures n in r <==> exists q :: q in qs && q.sectionName == n && IsVisible(q, responses)
    {
      SectionGroupSorted(qs, n);
      var v := VisibleQuestions(SectionGroup(qs, n), responses);
      if exists q :: q in qs && q.sectionName == n && IsVisible(q, responses) {
        var q :| q in qs && q.sectionName == n && IsVisible(q, responses);
        assert q in v;
      }
      if |v| > 0 {
        assert v[0] in v;
      }
    }
    r
  }
}
