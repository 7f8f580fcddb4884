/** The assessment-progress store (`useAssessmentStore`): the four wizard sections, the
    current section, the personality-quiz answers and the overall completion flag.
    `PERSONALITY_TRAITS`, the initial quiz, is a parameter. */
module AssessmentStore {
  import opened Types

  datatype State = State(
    sections: seq<AssessmentSection>,
    currentSectionIndex: int,
    personalityTraits: seq<PersonalityTrait>,
    isCompleted: bool)

  /** The four sections in wizard order, none completed. */
  const InitialSections: seq<AssessmentSection> := [
    AssessmentSection("academic", "Academic Scores", false),
    AssessmentSection("interests", "Interests", false),
    AssessmentSection("skills", "Skills", false),
    AssessmentSection("personality", "Personality", false)
  ]

  /** The store's initial state; `initializeAssessment` yields the same state. */
  function Initial(traits: seq<PersonalityTrait>): (r: State)
    ensures r.sections == InitialSections
    ensures |r.sections| == 4
    ensures forall k :: 0 <= k < 4 ==> !r.sections[k].completed
    ensures r.currentSectionIndex == 0 && !r.isCompleted
    ensures r.personalityTraits == traits
  {
    State(InitialSections, 0, traits, false)
  }

  /** `initializeAssessment`: every field back to its initial value, whatever the state was. */
  function InitializeAssessment(st: State, traits: seq<PersonalityTrait>): (r: State)
    ensures r.sections == InitialSections
    ensures r.currentSectionIndex == 0 && !r.isCompleted
    ensures r.personalityTraits == traits
  {
    Initial(traits)
  }

  /** `setCurrentSection`: the index is stored as given, without a bounds check. */
  function SetCurrentSection(st: State, index: int): (r: State)
    ensures r.currentSectionIndex == index
    ensures r.(currentSectionIndex := st.currentSectionIndex) == st
  {
    st.(currentSectionIndex := index)
  }

  predicate AllCompleted(sections: seq<AssessmentSection>)
  {
    forall k :: 0 <= k < |sections| ==> sections[k].completed
  }

  /** The sections with those carrying `id` marked completed. */
  function MarkId(sections: seq<AssessmentSection>, id: string): (r: seq<AssessmentSection>)
    ensures |r| == |sections|
    ensures forall k :: 0 <= k < |r| ==>
      && r[k].id == sections[k].id && r[k].title == sections[k].title
      && r[k].completed == (sections[k].completed || sections[k].id == id)
  {
    seq(|sections|, k requires 0 <= k < |sections| =>
      if sections[k].id == id then sections[k].(completed := true) else sections[k])
  }

  /** `markSectionCompleted`: the sections with that id are marked completed; the index
      moves one step forward, stopping at the last section, whichever id was given; and
      the assessment becomes complete once every section is. */
  function MarkSectionCompleted(st: State, id: string): (r: State)
    ensures r.sections == MarkId(st.sections, id)
    ensures st.currentSectionIndex < |st.sections| - 1 ==> r.currentSectionIndex == st.currentSectionIndex + 1
    ensures st.currentSectionIndex >= |st.sections| - 1 ==> r.currentSectionIndex == st.currentSectionIndex
    ensures r.isCompleted <==> st.isCompleted || AllCompleted(r.sections)
    ensures r.personalityTraits == st.personalityTraits
  {
    var updated := MarkId(st.sections, id);
    var next := if st.currentSectionIndex < |st.sections| - 1 then st.currentSectionIndex + 1
                else st.currentSectionIndex;
    var moved := st.(sections := updated, currentSectionIndex := next);
    if AllCompleted(updated) then moved.(isCompleted := true) else moved
  }

  /** A quiz answer as the store accepts it: option a or option b. */
  type Chosen = a: Answer | a != Unanswered witness A

  /** The quiz with the answer replaced on the traits carrying `traitId` only. */
  function SetAnswer(traits: seq<PersonalityTrait>, traitId: string, answer: Chosen): (r: seq<PersonalityTrait>)
    ensures |r| == |traits|
    ensures forall k :: 0 <= k < |r| && traits[k].id == traitId ==> r[k] == traits[k].(answer := answer)
    ensures forall k :: 0 <= k < |r| && traits[k].id != traitId ==> r[k] == traits[k]
  {
    seq(|traits|, k requires 0 <= k < |traits| =>
      if traits[k].id == traitId then traits[k].(answer := answer) else traits[k])
  }

  /** `updatePersonalityTrait`: the answer changes on the traits with that id only. */
  function UpdatePersonalityTrait(st: State, traitId: string, answer: Chosen): (r: State)
    ensures r.personalityTraits == SetAnswer(st.personalityTraits, traitId, answer)
    ensures r.(personalityTraits := st.personalityTraits) == st
  {
    st.(personalityTraits := SetAnswer(st.personalityTraits, traitId, answer))
  }

  /** `completeAssessment`. */
  function CompleteAssessment(st: State): (r: State)
    ensures r.isCompleted
    ensures r.(isCompleted := st.isCompleted) == st
  {
    st.(isCompleted := true)
  }

  /** `resetAssessment`: every section uncompleted (ids and titles kept), index 0, the quiz
      back to its initial answers and the assessment not complete. */
  function ResetAssessment(st: State, traits: seq<PersonalityTrait>): (r: State)
    ensures |r.sections| == |st.sections|
    ensures forall k :: 0 <= k < |r.sections| ==>
      r.sections[k] == st.sections[k].(completed := false)
    ensures r.currentSectionIndex == 0 && !r.isCompleted
    ensures r.personalityTraits == traits
  {
    var ss := st.sections;
    State(seq(|ss|, k requires 0 <= k < |ss| => ss[k].(completed := false)), 0, traits, false)
  }

  /** Marking keeps the index inside the section list, whatever id is passed. */
  lemma MarkKeepsIndexInRange(st: State, id: string)
    requires 0 <= st.currentSectionIndex < |st.sections|
    ensures 0 <= MarkSectionCompleted(st, id).currentSectionIndex < |st.sections|
  {
  }

  /** Marking never withdraws completion, neither of the assessment nor of a section. */
  lemma MarkIsMonotone(st: State, id: string)
    ensures st.isCompleted ==> MarkSectionCompleted(st, id).isCompleted
    ensures forall k :: 0 <= k < |st.sections| && st.sections[k].completed ==>
      MarkSectionCompleted(st, id).sections[k].completed
  {
  }

  /** An id no section carries leaves the sections as they were. */
  lemma MarkUnknownId(st: State, id: string)
    requires forall k :: 0 <= k < |st.sections| ==> st.sections[k].id != id
    ensures MarkSectionCompleted(st, id).sections == st.sections
  {
    var r := MarkId(st.sections, id);
    assert forall k :: 0 <= k < |r| ==> r[k] == st.sections[k];
  }

  /** Completing the four sections in wizard order from the initial state leaves the
      wizard on the last section with the assessment complete. */
  lemma WizardRunCompletes(traits: seq<PersonalityTrait>)
    ensures var s := MarkSectionCompleted(MarkSectionCompleted(MarkSectionCompleted(
              MarkSectionCompleted(Initial(traits), "academic"), "interests"), "skills"), "personality");
      s.isCompleted && s.currentSectionIndex == 3 && AllCompleted(s.sections)
  {
    var s1 := MarkSectionCompleted(Initial(traits), "academic");
    var s2 := MarkSectionCompleted(s1, "interests");
    var s3 := MarkSectionCompleted(s2, "skills");
    var s4 := MarkSectionCompleted(s3, "personality");
    assert s1.sections[0].completed;
    assert s2.sections[0].completed && s2.sections[1].completed;
    assert s3.sections[0].completed && s3.sections[1].completed && s3.sections[2].completed;
    assert s4.sections[0].completed && s4.sections[1].completed && s4.sections[2].completed
      && s4.sections[3].completed;
  }

  /** Until the last section is marked, the assessment is not complete. */
  lemma NotCompleteBeforeLastSection(traits: seq<PersonalityTrait>)
    ensures var s := MarkSectionCompleted(MarkSectionCompleted(MarkSectionCompleted(
              Initial(traits), "academic"), "interests"), "skills");
      !s.isCompleted && s.currentSectionIndex == 3
  {
    var s3 := MarkSectionCompleted(MarkSectionCompleted(MarkSectionCompleted(
              Initial(traits), "academic"), "interests"), "skills");
    assert !s3.sections[3].completed;
  }

  /** Resetting a store whose sections are the standard four gives the initial state. */
  lemma ResetIsInitialize(st: State, traits: seq<PersonalityTrait>)
    requires |st.sections| == 4
    requires forall k :: 0 <= k < 4 ==>
      st.sections[k].id == InitialSections[k].id && st.sections[k].title == InitialSections[k].title
    ensures ResetAssessment(st, traits) == InitializeAssessment(st, traits)
  {
    var r := ResetAssessment(st, traits);
    assert forall k :: 0 <= k < 4 ==> r.sections[k] == InitialSections[k];
  }
}
