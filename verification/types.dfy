/** The records of the application's domain, one datatype per declared type. */
module Types {
  import opened Wrappers

  /** The five academic subjects a profile rates, each 1..10 once entered and 0 while unset. */
  datatype AcademicScores = AcademicScores(
    math: int,
    science: int,
    english: int,
    socialStudies: int,
    arts: int)

  /** A user's profile: identity, assessment answers and the ids of the careers they saved. */
  datatype User = User(
    id: string,
    name: string,
    email: string,
    academicScores: AcademicScores,
    interests: seq<string>,
    skills: seq<string>,
    personalityType: string,
    savedCareers: seq<string>)

  /** A career record. `confidenceScore` is optional so that "not scored" differs from 0;
      `aiExplanation` is not declared by the application's type but is attached to every
      career built from a remote recommendation, so the model carries it as optional too. */
  datatype Career = Career(
    id: string,
    title: string,
    description: string,
    requiredSkills: seq<string>,
    matchingTags: seq<string>,
    educationRequired: string,
    averageSalary: string,
    growthOutlook: string,
    confidenceScore: Option<int>,
    aiExplanation: Option<string>)

  /** One step of the assessment wizard. */
  datatype AssessmentSection = AssessmentSection(id: string, title: string, completed: bool)

  /** A quiz answer: option a, option b, or not yet answered (`null`). */
  datatype Answer = A | B | Unanswered

  /** A personality-quiz question with its two options and the current answer. */
  datatype PersonalityTrait = PersonalityTrait(
    id: string,
    title: string,
    description: string,
    optionA: string,
    optionB: string,
    answer: Answer)

  /** A personality type: its four-letter code and the career titles it favours,
      compared by exact string by the scorer. */
  datatype PersonalityType = PersonalityType(
    code: string,
    title: string,
    description: string,
    careers: seq<string>)

  /** A subject row of the academic-score form. */
  datatype AcademicSubject = AcademicSubject(id: string, name: string, score: int)

  /** An entry offered by a selector (an interest or a skill); the category may be absent. */
  datatype SelectorItem = SelectorItem(id: string, name: string, category: Option<string>)
}
