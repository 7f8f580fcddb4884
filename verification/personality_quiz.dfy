/** The personality quiz component: the four-letter code built from the first four
    answers, and the stepping through the questions. */
module PersonalityQuiz {
  import opened Wrappers
  import opened Types
  import opened AssessmentStore

  /** Position i of the code is `FirstLetters[i]` for answer a and `SecondLetters[i]` otherwise:
      E/I, S/N, T/F, J/P. */
  const FirstLetters := "ESTJ"
  const SecondLetters := "INFP"

  /** `calculatePersonalityType`. Reading the answer of a missing trait throws, so fewer
      than four traits give no code. */
  function CalculateCode(traits: seq<PersonalityTrait>): (r: Option<string>)
    ensures r.None? <==> |traits| < 4
    ensures r.Some? ==> |r.value| == 4
    ensures r.Some? ==> forall i :: 0 <= i < 4 ==>
      (r.value[i] == FirstLetters[i] || r.value[i] == SecondLetters[i])
      && (r.value[i] == FirstLetters[i] <==> traits[i].answer == A)
  {
    if |traits| < 4 then None
    else Some(seq(4, i requires 0 <= i < 4 =>
      if traits[i].answer == A then FirstLetters[i] else SecondLetters[i]))
  }

  /** A four-letter code with each letter from its position's pair. */
  predicate IsCode(code: string)
  {
    |code| == 4 && forall i :: 0 <= i < 4 ==> code[i] == FirstLetters[i] || code[i] == SecondLetters[i]
  }

  /** Quiz answers that spell `code`: option a wherever the code has the first letter. */
  function AnswersFor(code: string): (traits: seq<PersonalityTrait>)
    requires IsCode(code)
    ensures |traits| == 4
  {
    seq(4, i requires 0 <= i < 4 =>
      PersonalityTrait("", "", "", "", "", if code[i] == FirstLetters[i] then A else B))
  }

  /** Every one of the sixteen codes is produced by some answers, and reading the answers
      back off the code gives the code again. */
  lemma EveryCodeReachable(code: string)
    requires IsCode(code)
    ensures CalculateCode(AnswersFor(code)) == Some(code)
  {
    var r := CalculateCode(AnswersFor(code)).value;
    forall i | 0 <= i < 4 ensures r[i] == code[i] {
      assert FirstLetters[i] != SecondLetters[i];
    }
    assert r == code;
  }

  /** Only whether each of the first four traits was answered a matters: a b answer reads
      like no answer, and traits after the fourth are never read. */
  lemma CodeReadsFirstFourOnly(traits: seq<PersonalityTrait>, traits': seq<PersonalityTrait>)
    requires |traits| >= 4 && |traits'| >= 4
    requires forall i :: 0 <= i < 4 ==> (traits[i].answer == A <==> traits'[i].answer == A)
    ensures CalculateCode(traits) == CalculateCode(traits')
  {
    var a := CalculateCode(traits).value;
    var b := CalculateCode(traits').value;
    forall i | 0 <= i < 4 ensures a[i] == b[i] {
      assert FirstLetters[i] != SecondLetters[i];
    }
    assert a == b;
  }

  /** What one answer click leads to: the next question, the finished quiz with its code,
      or an exception while computing the code. */
  datatype Next = Continue(index: int) | Complete(code: string) | Crash

  /** The effect of `handleAnswer`: the store records the answer for the current trait,
      and the quiz moves on or finishes. */
  datatype AnswerStep = AnswerStep(traitId: string, answer: Chosen, next: Next)

  /** `handleAnswer` exactly as written: the code is computed from the `traits` the click
      handler captured, which do not yet contain the answer just given. */
  function HandleAnswerAsWritten(traits: seq<PersonalityTrait>, index: int, answer: Chosen): (r: AnswerStep)
    requires 0 <= index < |traits|
    ensures r.traitId == traits[index].id && r.answer == answer
    ensures index < |traits| - 1 ==> r.next == Continue(index + 1)
    ensures index == |traits| - 1 ==> r.next == (if |traits| < 4 then Crash else Complete(CalculateCode(traits).value))
  {
    var next :=
      if index < |traits| - 1 then Continue(index + 1)
      else match CalculateCode(traits)
        case None => Crash
        case Some(code) => Complete(code);
    AnswerStep(traits[index].id, answer, next)
  }

  /** `handleAnswer` as evidently intended: the code is computed from the answers the store
      holds once this answer is recorded. */
  function HandleAnswer(traits: seq<PersonalityTrait>, index: int, answer: Chosen): (r: AnswerStep)
    requires 0 <= index < |traits|
    ensures r.traitId == traits[index].id && r.answer == answer
    ensures index < |traits| - 1 ==> r.next == Continue(index + 1)
    ensures index == |traits| - 1 ==>
      r.next == (if |traits| < 4 then Crash
                 else Complete(CalculateCode(SetAnswer(traits, traits[index].id, answer)).value))
  {
    var recorded := SetAnswer(traits, traits[index].id, answer);
    var next :=
      if index < |traits| - 1 then Continue(index + 1)
      else match CalculateCode(recorded)
        case None => Crash
        case Some(code) => Complete(code);
    AnswerStep(traits[index].id, answer, next)
  }

  /** The "Previous Question" button, shown only past the first question. */
  function Previous(index: int): (r: int)
    ensures index > 0 ==> r == index - 1
    ensures index <= 0 ==> r == index
  {
    if index > 0 then index - 1 else index
  }

  /** The question index never leaves 0..|traits|-1: answering, with the handler as
      written or the intended one, moves forward only below the last question, and going
      back moves only above the first. */
  lemma IndexStaysInRange(traits: seq<PersonalityTrait>, index: int, answer: Chosen)
    requires 0 <= index < |traits|
    ensures HandleAnswerAsWritten(traits, index, answer).next.Continue? ==>
      0 <= HandleAnswerAsWritten(traits, index, answer).next.index < |traits|
    ensures HandleAnswer(traits, index, answer).next.Continue? ==>
      0 <= HandleAnswer(traits, index, answer).next.index < |traits|
    ensures 0 <= Previous(index) < |traits|
  {
  }

  /** With the intended handler, the finished code reflects every recorded answer,
      including the one given on the last question (trait ids distinct). */
  lemma CodeReflectsLastAnswer(traits: seq<PersonalityTrait>, answer: Chosen)
    requires |traits| >= 4
    requires forall i, j :: 0 <= i < j < |traits| ==> traits[i].id != traits[j].id
    ensures var last := |traits| - 1;
      var step := HandleAnswer(traits, last, answer);
      step.next.Complete? &&
      forall i :: 0 <= i < 4 ==>
        (step.next.code[i] == FirstLetters[i] <==> (if i == last then answer == A else traits[i].answer == A))
  {
    var last := |traits| - 1;
    var recorded := SetAnswer(traits, traits[last].id, answer);
    forall i | 0 <= i < 4
      ensures recorded[i].answer == (if i == last then answer else traits[i].answer)
    {
      if i != last {
        assert traits[i].id != traits[last].id;
      }
    }
  }

  /** The four-question quiz as written: three questions answered a, and a on the last
      one, yields "ESTP" although every recorded answer is a; the intended handler
      yields "ESTJ". */
  lemma StaleLastAnswer()
    ensures var traits := [
        PersonalityTrait("ei", "", "", "", "", A),
        PersonalityTrait("sn", "", "", "", "", A),
        PersonalityTrait("tf", "", "", "", "", A),
        PersonalityTrait("jp", "", "", "", "", Unanswered)];
      && HandleAnswerAsWritten(traits, 3, A).next == Complete("ESTP")
      && HandleAnswer(traits, 3, A).next == Complete("ESTJ")
  {
    var traits := [
        PersonalityTrait("ei", "", "", "", "", A),
        PersonalityTrait("sn", "", "", "", "", A),
        PersonalityTrait("tf", "", "", "", "", A),
        PersonalityTrait("jp", "", "", "", "", Unanswered)];
    var recorded := SetAnswer(traits, "jp", A);
    assert recorded[3].answer == A;
    assert recorded[0].answer == A && recorded[1].answer == A && recorded[2].answer == A;
    assert CalculateCode(traits).value == "ESTP";
    assert CalculateCode(recorded).value == "ESTJ";
  }
}
