/** The option lists of lib/data/real_dropdown_mapping.ts: a table from
    question texts to dropdown options, looked up by exact text first and then
    by substring in either direction. The table is a sequence of entries in
    declaration order, which is the order `Object.entries` yields for keys
    that are not array indices. */
module DropdownMapping {
  import opened Seqs

  datatype Entry = Entry(pattern: string, options: seq<string>)

  /** The text and the pattern are related when either contains the other. */
  predicate Related(text: string, pattern: string) {
    Contains(text, pattern) || Contains(pattern, text)
  }

  /** The lookup `realDropdownMappings[questionText]` on a table with the
      given entries: the options of the first entry whose pattern is the
      text. (An option list is an array, so a present entry is always
      truthy.) */
  function ExactLookup(m: seq<Entry>, text: string): (r: Option<seq<string>>)
    ensures r.None? <==> forall i :: 0 <= i < |m| ==> m[i].pattern != text
    ensures r.Some? ==> exists i :: 0 <= i < |m| && m[i].pattern == text && r.value == m[i].options
  {
    match Find((e: Entry) => e.pattern == text, m)
    case None => None
    case Some(e) => Some(e.options)
  }

  /** `getRealDropdownOptions` over a table: an exact match wins, then the
      first entry whose pattern is related to the text, then null. */
  function OptionsFor(m: seq<Entry>, text: string): (r: Option<seq<string>>)
    ensures r.Some? ==> exists i :: 0 <= i < |m| && r.value == m[i].options
    ensures r.None? <==> forall i :: 0 <= i < |m| ==> !Related(text, m[i].pattern)
  {
    match ExactLookup(m, text)
    case Some(options) =>
      ContainsSelf(text);
      Some(options)
    case None =>
      match Find((e: Entry) => Related(text, e.pattern), m)
      case None => None
      case Some(e) => Some(e.options)
  }

  /** An exact match returns the options of the first entry with that
      pattern, even when an earlier entry is related to the text. */
  lemma ExactMatchWins(m: seq<Entry>, text: string, i: int)
    requires 0 <= i < |m| && m[i].pattern == text
    requires forall j :: 0 <= j < i ==> m[j].pattern != text
    ensures OptionsFor(m, text) == Some(m[i].options)
  {
    var p := (e: Entry) => e.pattern == text;
    var k := FindIndex(p, m).value;
    assert forall j :: 0 <= j < k ==> m[j].pattern != text;
    assert k == i;
  }

  /** Without an exact match, the options of the first related entry in
      declaration order are returned. */
  lemma FallbackTakesFirstRelated(m: seq<Entry>, text: string, i: int)
    requires forall j :: 0 <= j < |m| ==> m[j].pattern != text
    requires 0 <= i < |m| && Related(text, m[i].pattern)
    requires forall j :: 0 <= j < i ==> !Related(text, m[j].pattern)
    ensures OptionsFor(m, text) == Some(m[i].options)
  {
    var p := (e: Entry) => Related(text, e.pattern);
    var k := FindIndex(p, m).value;
    assert forall j :: 0 <= j < k ==> !Related(text, m[j].pattern);
    assert k == i;
  }

  /** `realDropdownMappings`. */
  const RealDropdownMappings: seq<Entry> := [
    Entry("Is EagleView missing from the assignment?", ["Yes", "No"]),
    Entry("If yes, was EagleView ordered following the instructions of the email guide?", ["Yes", "No"]),
    Entry("If no, why not.", ["Repeated attempts", "Unresponsive", "Other"]),
    Entry("If no, send REPLY to thread on Teams Channel to request EagleView.", ["choose one", "TA in process of completing claim setup.", "Other"]),
    Entry("What is the status of the Manager's request?", ["Pending", "In Progress", "Completed", "Approved", "Rejected", "Under Review", "Escalated", "Cancelled"]),
    Entry("What is the Plan of Action?", ["Reassign to different adjuster", "Provide additional training", "Monitor closely", "Escalate to supervisor", "Continue current approach", "Close claim", "Other"]),
    Entry("Manager's game plan.", ["Reassign to different adjuster", "Provide additional training", "Monitor closely", "Escalate to supervisor", "Continue current approach", "Close claim", "Other"]),
    Entry("If UNRESPONSIVE, the Manager's course of action is to send email to Allstate Desk Adjuster to request EagleView report and notate XactAnalysis with request.", ["Yes", "No"]),
    Entry("If Manager completed EAGLEVIEW REQUEST, is the TA at fault?", ["Yes", "No", "Partially", "Under Investigation", "Not Applicable"]),
    Entry("Resolution of Manager's request?", ["Resolved", "Pending", "Escalated", "Closed", "Under Investigation", "Other"]),
    Entry("Is Ladder Assist needed?", ["Yes", "No"]),
    Entry("If yes: was Ladder Assist approval requested from Allstate Desk Adjuster?", ["Yes", "No"]),
    Entry("If no, why was Ladder Assist not requested from the Allstate Desk Adjuster?", ["Yes", "No"]),
    Entry("If no, send text reminder to Task Adjuster to request Ladder Assist.", ["Yes", "No"]),
    Entry("Is claim represented?", ["Yes", "No"]),
    Entry("DOL", ["choose one", "TA in process of completing claim setup.", "Other"]),
    Entry("Notes   (COLOR NOTIFICATION/ALERT TO MANAGER WITH EACH NEW NOTE ADDED TO CLAIM FILE - MANAGER MUST ADDRESS NEW NOTE ENTRY)", ["choose one", "TA in process of completing claim setup.", "Other"]),
    Entry("Documents", ["choose one", "TA in process of completing claim setup.", "Other"])
  ]

  /** `getRealDropdownOptions(questionText)`. */
  function GetRealDropdownOptions(text: string): (r: Option<seq<string>>)
    ensures r.Some? ==> exists i :: 0 <= i < |RealDropdownMappings| && r.value == RealDropdownMappings[i].options
    ensures r.None? <==> forall i :: 0 <= i < |RealDropdownMappings| ==> !Related(text, RealDropdownMappings[i].pattern)
  {
    OptionsFor(RealDropdownMappings, text)
  }

  /** `shouldUseRealDropdown(questionText)`: some pattern is related to the
      text. */
  function ShouldUseRealDropdown(text: string): (b: bool)
    ensures b <==> exists i :: 0 <= i < |RealDropdownMappings| && Related(text, RealDropdownMappings[i].pattern)
    ensures b <==> GetRealDropdownOptions(text).Some?
  {
    GetRealDropdownOptions(text) != None
  }

  /** Every option list of the table is non-empty. */
  lemma OptionListsNonEmpty()
    ensures forall i :: 0 <= i < |RealDropdownMappings| ==> |RealDropdownMappings[i].options| > 0
  {
  }

  /** A list of options that the lookup returns is never empty. */
  lemma ReturnedOptionsNonEmpty(text: string)
    ensures GetRealDropdownOptions(text).Some? ==> |GetRealDropdownOptions(text).value| > 0
  {
    OptionListsNonEmpty();
  }

  /** No pattern is the empty string. */
  lemma PatternsNonEmpty()
    ensures forall i :: 0 <= i < |RealDropdownMappings| ==> RealDropdownMappings[i].pattern != ""
  {
  }

  /** The empty text is contained in the first pattern, so it gets that
      entry's options, `["Yes", "No"]`, and never null. */
  lemma EmptyTextGetsYesNo()
    ensures GetRealDropdownOptions("") == Some(["Yes", "No"])
  {
    PatternsNonEmpty();
    ContainsEmpty(RealDropdownMappings[0].pattern);
    FallbackTakesFirstRelated(RealDropdownMappings, "", 0);
  }

  /** The patterns are pairwise different, as keys of an object are. */
  lemma PatternsDistinct()
    ensures forall i, j :: 0 <= i < j < |RealDropdownMappings| ==>
      RealDropdownMappings[i].pattern != RealDropdownMappings[j].pattern
  {
  }

  /** Looking up a pattern of the table gives that pattern's own options. */
  lemma PatternGetsItsOptions(i: int)
    requires 0 <= i < |RealDropdownMappings|
    ensures GetRealDropdownOptions(RealDropdownMappings[i].pattern) == Some(RealDropdownMappings[i].options)
  {
    PatternsDistinct();
    ExactMatchWins(RealDropdownMappings, RealDropdownMappings[i].pattern, i);
  }
}
