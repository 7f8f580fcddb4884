/** The academic-score step (`AcademicScoreInput`): a local copy of the subject rows,
    updated one subject at a time from a 1..10 slider. */
module AcademicScoreInput {
  import opened Types

  /** What the slider can deliver: whole numbers from 1 to 10. */
  type SliderValue = n: int | 1 <= n <= 10 witness 1

  /** The result of `handleScoreChange`: the new local rows, and the `(subjectId, score)`
      pair passed on to `onScoreChange`. */
  datatype ScoreChange = ScoreChange(subjects: seq<AcademicSubject>, forwarded: (string, int))

  /** `handleScoreChange`: only the rows with that subject id take the new score. */
  function HandleScoreChange(subjects: seq<AcademicSubject>, subjectId: string, score: int): (r: ScoreChange)
    ensures r.forwarded == (subjectId, score)
    ensures |r.subjects| == |subjects|
    ensures forall k :: 0 <= k < |subjects| ==>
      && r.subjects[k].id == subjects[k].id && r.subjects[k].name == subjects[k].name
      && r.subjects[k].score == (if subjects[k].id == subjectId then score else subjects[k].score)
  {
    ScoreChange(
      seq(|subjects|, k requires 0 <= k < |subjects| =>
        if subjects[k].id == subjectId then subjects[k].(score := score) else subjects[k]),
      (subjectId, score))
  }

  /** `isComplete`: every subject has a positive score (so an empty list is complete). */
  function IsComplete(subjects: seq<AcademicSubject>): (b: bool)
    ensures subjects == [] ==> b
    ensures b <==> forall s :: s in subjects ==> s.score >= 1
  {
    forall k :: 0 <= k < |subjects| ==> subjects[k].score > 0
  }

  /** The Continue button is disabled exactly while the step is incomplete. */
  function ContinueDisabled(subjects: seq<AcademicSubject>): (disabled: bool)
    ensures disabled <==> exists k :: 0 <= k < |subjects| && subjects[k].score <= 0
  {
    !IsComplete(subjects)
  }

  /** A slider change never makes a complete step incomplete. */
  lemma SliderKeepsComplete(subjects: seq<AcademicSubject>, subjectId: string, score: SliderValue)
    requires IsComplete(subjects)
    ensures IsComplete(HandleScoreChange(subjects, subjectId, score).subjects)
  {
  }

  /** Setting the last unscored subject from the slider completes the step. */
  lemma SliderCompletesLastSubject(subjects: seq<AcademicSubject>, subjectId: string, score: SliderValue)
    requires forall k :: 0 <= k < |subjects| && subjects[k].id != subjectId ==> subjects[k].score > 0
    ensures IsComplete(HandleScoreChange(subjects, subjectId, score).subjects)
  {
  }

  /** Scoring, in any order, every subject that has no score yet completes the step. */
  lemma {:induction false} ScoringAllCompletes(subjects: seq<AcademicSubject>, ids: seq<string>, score: SliderValue)
    requires forall k :: 0 <= k < |subjects| ==> subjects[k].score > 0 || subjects[k].id in ids
    ensures IsComplete(ScoreAll(subjects, ids, score))
    decreases |ids|
  {
    if ids != [] {
      var after := HandleScoreChange(subjects, ids[0], score).subjects;
      forall k | 0 <= k < |after| && after[k].score <= 0 ensures after[k].id in ids[1..] {
        assert subjects[k].id != ids[0];
        assert subjects[k].id in ids;
        assert ids == [ids[0]] + ids[1..];
      }
      ScoringAllCompletes(after, ids[1..], score);
    }
  }

  /** The rows after one slider change per id in `ids`, all to `score`. */
  function ScoreAll(subjects: seq<AcademicSubject>, ids: seq<string>, score: SliderValue): seq<AcademicSubject>
    decreases |ids|
  {
    if ids == [] then subjects
    else ScoreAll(HandleScoreChange(subjects, ids[0], score).subjects, ids[1..], score)
  }
}
