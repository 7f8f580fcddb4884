# Career recommendation engine — a Dafny model

This project models the decision logic of a mobile career-guidance app. A student
enters academic scores, interests, skills and a personality type; the app recommends
careers from a catalogue. The core is `getCareerRecommendations` in
`services/aiService.ts`:

- the **remote path** asks a language-model endpoint, cuts the first `{` … last `}`
  span out of the reply text, parses it and maps each recommendation onto a catalogue
  career (title matched ignoring case) or onto a synthesised record;
- the **fallback recommender** runs on any failure of the remote path: an integer
  score per catalogue career (20 per strong subject with a matching tag, 15 per
  matching interest or skill entry, 25 for a personality match, clamped at 100), a
  stable sort by descending score and the first five.

Around the core the project models the three stores (profile, assessment progress,
mock authentication), the root layout's redirect-and-initialise effect, the
personality quiz, the selector widget with its interests/skills steps, the academic
score step, and the login and sign-up form rules.

Everything is pure: every store action is a function from state to state, every
component handler a function from its inputs to what it sets and what it passes on.
The network reply, `JSON.parse`, `Math.random` and the two catalogues (careers and
personality types) are parameters.

Files, one module each: `wrappers.dfy` (Option), `lists.dfy` (first-match search,
duplicate-free lists, filter, toggle, counting), `text.dfy` (JavaScript `trim`, UTF-16
length, ASCII case folding, decimal numerals), `types.dfy` (the records of `types/index.ts`), `ranking.dfy` (stable
descending sort and its uniqueness), `scorer.dfy` and `scorer_properties.dfy` (the
fallback recommender), `remote.dfy` (the remote path), `user_store.dfy`,
`assessment_store.dfy`, `auth_store.dfy`, `root_layout.dfy`, `personality_quiz.dfy`,
`selector.dfy`, `interests_selector.dfy`, `skills_selector.dfy`,
`academic_score_input.dfy`, `signup_form.dfy`, `login_form.dfy`.

The stable sort is modelled on catalogue positions: position `i` ranks ahead of `j`
when its score is higher, or equal and `i < j`. ECMAScript 2019 and later require
`Array.prototype.sort` to be stable (section 23.1.3.30 of ECMA-262, 2023 edition), so
`Ranking.StableSortIsRank` shows that any conforming engine produces exactly the
model's order.

The reply is cut with the greedy regular expression `/\{[\s\S]*\}/`: a
brace-balanced extraction would stop at the first object's closing brace, while the
regular expression runs on to the last `}` of the whole reply, taking any text
between two objects with it. The model follows the regular expression
(`Remote.GreedyAcrossObjects` shows the difference).

## Model

| member | source | states |
|---|---|---|
| Scorer.Bonus | services/aiService.ts:120-123 | a subject earns 20 exactly when its score is above 7 and the career carries the matching tag, otherwise 0 |
| Scorer.AcademicPoints | services/aiService.ts:118-123 | the academic part is 0, 20, 40, 60 or 80; each qualifying subject guarantees at least 20; it is 0 iff no subject is above 7 with its tag, and tags outside the five named ones earn nothing |
| ScorerProperties.AcademicPointsCountsQualifying | services/aiService.ts:118-123 | the academic part is exactly 20 times the number of subjects among mathematics, science, english and arts whose score is above 7 and whose tag (for english, "Communication" or "Writing") the career carries |
| ScorerProperties.SubjectCrossesThreshold | services/aiService.ts:118-123 | any one of the four subjects going from 7 or below to above 7, the rest unchanged, adds exactly 20 to the unclamped score when the career carries its tag and nothing otherwise |
| ScorerProperties.OnlyThresholdMatters | services/aiService.ts:120-123 | two score sets that agree, subject by subject, on "above 7" give every career the same score; social studies never matters |
| ScorerProperties.ScoreMonotone | services/aiService.ts:120-123 | raising subject scores never lowers any career's score |
| ScorerProperties.MathSevenToEight | services/aiService.ts:120 | mathematics going from 7 to 8 adds exactly 20 before the clamp to a career tagged "Mathematics" and nothing otherwise |
| ScorerProperties.EnglishBonusOnce | services/aiService.ts:122 | a strong english score earns 20 once, even when both "Communication" and "Writing" tags are present |
| Lists.CountIn | services/aiService.ts:126-133 | the number of entries found in the tag list is at most the number of entries, 0 iff none is found, all iff every one is found |
| ScorerProperties.InterestsAdd | services/aiService.ts:126-128 | appending interests adds 15 for every appended entry found among the career's tags |
| ScorerProperties.SkillsAdd | services/aiService.ts:131-133 | appending skills adds 15 for every appended entry found among the career's required skills |
| ScorerProperties.RepeatedInterestCountsTwice | services/aiService.ts:126-128 | a matching interest listed twice adds 30: entries are counted, not distinct values |
| Scorer.FindType | services/aiService.ts:137 | the personality type found is the first one with exactly the given code; none iff no type has it |
| Scorer.PersonalityPoints | services/aiService.ts:136-141 | the personality part is 0 or 25; 0 for an empty code or when no type with that code lists the title; 25 only when some type with that code lists it |
| ScorerProperties.PersonalityBonusIff | services/aiService.ts:136-141 | 25 is earned iff the code is non-empty, some type carries it, and the first such type lists the career's title |
| Scorer.RawScore | services/aiService.ts:116-141 | the unclamped score is at least its academic and personality parts, at most 80 plus 15 per interest and skill entry plus 25, and 0 iff no subject, interest, skill or personality match earns anything |
| ScorerProperties.PersonalityAdds | services/aiService.ts:136-141 | the unclamped score is the score without a personality code plus the personality part |
| Scorer.CareerScore | services/aiService.ts:143-146 | the confidence score lies in 0..100, equals the raw score when that is at most 100 and is 100 otherwise |
| Scorer.Ranked | services/aiService.ts:150-151 | the ranking is a duplicate-free arrangement of all catalogue positions, by descending score, equal scores in catalogue order |
| Ranking.Rank | services/aiService.ts:150-151 | the insertion ranking holds every position once, sorted by descending score with ties in ascending position |
| Ranking.StableSortIsRank | services/aiService.ts:150-151 | any arrangement of all positions that is sorted by descending score and stable on ties equals the model's ranking |
| ScorerProperties.FallbackOrderIsStableSort | services/aiService.ts:150-151 | the fallback order is the one any stable sort by descending confidence score produces |
| Scorer.FallbackRecommendations | services/aiService.ts:112-153 | at most five careers; the k-th is the k-th ranked catalogue record with only its confidence score set; scores in 0..100, non-increasing, ties in catalogue order |
| ScorerProperties.FallbackKeepsBest | services/aiService.ts:150-152 | a career cut from the five scores no more than any career kept |
| ScorerProperties.ScenarioSoftwareEngineer | services/aiService.ts:116-147 | mathematics 9, science 9 and one matching interest score a career tagged with all three 55 |
| ScorerProperties.ScenarioDataScientist | services/aiService.ts:136-141 | a personality type listing the career and nothing else matching scores 25 |
| Remote.JsonSpan | services/aiService.ts:65 | no span iff no `{` comes before a `}`; otherwise the span runs from the first `{` to the last `}` inclusive |
| Remote.ExtractJson | services/aiService.ts:64-68 | the extracted text exists iff a span does, is exactly that span, and starts with `{` and ends with `}` |
| Remote.ProseAroundJson | services/aiService.ts:64-70 | prose without braces around one object is stripped, leaving exactly the object |
| Remote.GreedyAcrossObjects | services/aiService.ts:65 | two objects in one reply are taken together with the text between them, not the first object alone |
| Remote.RemoteOutcome | services/aiService.ts:57-73 | the remote list is obtained iff the request succeeded, the status is ok, completion text exists, a span is found, it parses and it has recommendations |
| Remote.FindByTitle | services/aiService.ts:75-77 | the catalogue career found is the first whose title equals the recommended one ignoring letter case; none iff no title does |
| Remote.TitleMatchIgnoresCase | services/aiService.ts:75-85 | "DATA SCIENTIST" picks the catalogue's "Data Scientist" record |
| Remote.ToCareer | services/aiService.ts:79-99 | a matched recommendation is the catalogue record with the remote score and explanation attached; an unmatched one is a new record with id "ai-" plus the random part, the remote title, the explanation as description, empty lists and "Varies" fields |
| Remote.MappedTitleMatches | services/aiService.ts:73-99 | every mapped career, matched or synthesised, has a title equal to the remote one ignoring case and carries the remote score and explanation |
| Remote.CatalogRecordReused | services/aiService.ts:75-85 | when some catalogue title equals the remote one exactly, the result is that record or an earlier case-insensitive match, with only score and explanation attached |
| Remote.GetCareerRecommendations | services/aiService.ts:57-107 | on success the result has one career per remote entry, in the remote order, neither sorted nor capped; on any failure it is exactly the fallback list |
| Remote.EveryFailureFallsBack | services/aiService.ts:103-107 | each of the six failure conditions yields the fallback recommendations |
| Lists.RemoveAll | stores/userStore.ts:124 | the filtered list holds every element except the removed value with the same multiplicity, and never that value |
| UserStore.InitializeProfile | stores/userStore.ts:31-50 | the profile becomes a fresh one with the given id, name and email, zero scores, empty lists and no personality code, whatever was there |
| UserStore.ApplyScores | stores/userStore.ts:59-62 | each subject named in the patch takes the patch's value, every other subject keeps its value |
| UserStore.ApplyEmptyPatch | stores/userStore.ts:59-62 | an empty patch leaves the scores unchanged |
| UserStore.ApplyScoresCompose | stores/userStore.ts:52-65 | two successive score updates equal one update with the merged patch, the later values winning |
| UserStore.UpdateAcademicScores | stores/userStore.ts:52-65 | without a profile nothing changes; with one only the scores change, as the patch says |
| UserStore.UpdateInterests | stores/userStore.ts:67-77 | without a profile nothing changes; with one only the interest list is replaced |
| UserStore.UpdateSkills | stores/userStore.ts:79-89 | without a profile nothing changes; with one only the skill list is replaced |
| UserStore.UpdatePersonalityType | stores/userStore.ts:91-101 | without a profile nothing changes; with one only the personality code is replaced |
| UserStore.SaveCareer | stores/userStore.ts:103-115 | an unsaved id is appended at the end and nothing else changes; an already saved id or a missing profile changes nothing |
| UserStore.RemoveCareer | stores/userStore.ts:117-127 | every occurrence of the id leaves the saved list, the others keep their order; nothing else changes |
| UserStore.ClearProfile | stores/userStore.ts:129-131 | the profile is gone; loading flag and error are kept |
| UserStore.ActionsPreserveValid | stores/userStore.ts:27-131 | every action keeps the saved-career list free of duplicates |
| UserStore.SaveIdempotent | stores/userStore.ts:103-115 | saving the same id twice is saving it once |
| UserStore.RemoveAbsentIsNoOp | stores/userStore.ts:117-127 | removing an id that is not saved leaves the store equal to what it was |
| UserStore.SaveThenRemoveRestores | stores/userStore.ts:103-127 | saving a fresh id and then removing it restores the store exactly |
| AssessmentStore.Initial | stores/assessmentStore.ts:26-34 | exactly the standard four sections, none completed, index 0, the initial quiz, not complete |
| AssessmentStore.InitializeAssessment | stores/assessmentStore.ts:36-48 | from any state, the standard four sections, index 0, the initial quiz, not complete |
| AssessmentStore.SetCurrentSection | stores/assessmentStore.ts:50-52 | only the index changes, to the value given, without a bounds check |
| AssessmentStore.MarkId | stores/assessmentStore.ts:56-58 | the sections keep ids, titles and order; a section is completed iff it was or carries the id |
| AssessmentStore.MarkSectionCompleted | stores/assessmentStore.ts:54-74 | the id's sections are marked, the index advances by one unless on the last section, and the assessment is complete iff it was or every section now is |
| AssessmentStore.MarkKeepsIndexInRange | stores/assessmentStore.ts:60-63 | marking keeps an in-range index in range, whatever id is passed |
| AssessmentStore.MarkIsMonotone | stores/assessmentStore.ts:54-74 | marking never withdraws the completion of a section or of the assessment |
| AssessmentStore.MarkUnknownId | stores/assessmentStore.ts:56-58 | an id no section carries leaves the sections unchanged |
| AssessmentStore.WizardRunCompletes | stores/assessmentStore.ts:54-74 | marking the four sections in wizard order ends on the last section with everything complete |
| AssessmentStore.NotCompleteBeforeLastSection | stores/assessmentStore.ts:70-73 | after three of the four sections the assessment is not yet complete |
| AssessmentStore.SetAnswer | stores/assessmentStore.ts:78-80 | the answer changes on the traits with that id and no other trait changes |
| AssessmentStore.UpdatePersonalityTrait | stores/assessmentStore.ts:76-83 | only the quiz changes, by that answer on that trait |
| AssessmentStore.CompleteAssessment | stores/assessmentStore.ts:85-87 | only the completion flag changes, to set |
| AssessmentStore.ResetAssessment | stores/assessmentStore.ts:89-96 | every section is uncompleted with id and title kept, index 0, the initial quiz, not complete |
| AssessmentStore.ResetIsInitialize | stores/assessmentStore.ts:89-96 | resetting a store holding the standard four sections gives the same state as initialising it |
| AuthStore.Begin | stores/authStore.ts:33 | an action's first step sets loading, clears the error and changes nothing else |
| AuthStore.Login | stores/authStore.ts:31-56 | succeeds iff the demo email and password are given exactly, then holds the demo identity; otherwise only loading ends and the error is "Invalid email or password" |
| AuthStore.FailedLoginKeepsIdentity | stores/authStore.ts:47-55 | a failed login leaves the authentication flag, user id, email and name as they were |
| AuthStore.LoginAuthenticatesIff | stores/authStore.ts:39-49 | starting signed out, login signs in iff the demo credentials are given |
| AuthStore.Signup | stores/authStore.ts:58-79 | signup always signs in with the given name and email and a user id starting with "user" |
| Text.NatToDecimal | stores/authStore.ts:68 | the decimal numeral of a number is digits only, has no leading zero, and has at most three digits below 1000 |
| AuthStore.SignupUserIdShape | stores/authStore.ts:68 | the user id is "user" and one to three digits whose value is the random number drawn |
| AuthStore.Logout | stores/authStore.ts:81-88 | the identity is cleared; loading flag and error stay |
| AuthStore.ClearError | stores/authStore.ts:90-92 | only the error is cleared |
| AuthStore.ActionsPreserveConsistent | stores/authStore.ts:24-92 | every action keeps "authenticated iff user id, email and name are all set" |
| RootLayout.Redirect | app/_layout.tsx:60-68 | signed-out users outside the auth screens go to "/auth/login", signed-in users inside them go to "/", and otherwise nobody is redirected |
| RootLayout.ShouldInitializeProfile | app/_layout.tsx:55 | a profile is created only for a signed-in user with no profile whose id, name and email are present and non-empty; an empty id blocks it |
| RootLayout.LogoutNeverInitializes | stores/authStore.ts:81-88 | after sign-out the guard never creates a profile |
| RootLayout.LayoutEffect | app/_layout.tsx:53-69 | a profile is created iff signed in with non-empty id, name and email and no profile yet, from those three values; signed-out users outside the auth screens go to login, signed-in users inside them go home, and there is no redirect otherwise |
| RootLayout.RedirectSettles | app/_layout.tsx:60-68 | the route a redirect leads to is one where the guard does not redirect again |
| RootLayout.EffectSettles | app/_layout.tsx:53-69 | once the effect's profile creation and redirect are carried out, running it again does nothing; the profile created belongs to the signed-in user |
| RootLayout.InitializeOnce | app/_layout.tsx:55-57 | with a profile present, no profile is created |
| PersonalityQuiz.CalculateCode | components/assessment/PersonalityQuiz.tsx:33-42 | a code exists iff there are at least four traits; letter i is the first of its pair E/I, S/N, T/F, J/P iff trait i was answered a |
| PersonalityQuiz.EveryCodeReachable | components/assessment/PersonalityQuiz.tsx:35-40 | each of the sixteen codes is produced by the answers read off it |
| PersonalityQuiz.CodeReadsFirstFourOnly | components/assessment/PersonalityQuiz.tsx:35-38 | answers that agree on "a or not" for the first four traits give the same code; later traits are never read |
| PersonalityQuiz.HandleAnswerAsWritten | components/assessment/PersonalityQuiz.tsx:21-31 | the answer is recorded for the current trait; before the last question the quiz moves on; on the last the code is computed from the traits as they were before this answer |
| PersonalityQuiz.HandleAnswer | components/assessment/PersonalityQuiz.tsx:21-31 | as above, but the code is computed from the traits with this answer recorded |
| PersonalityQuiz.Previous | components/assessment/PersonalityQuiz.tsx:110-113 | going back moves one question back, and only past the first question |
| PersonalityQuiz.IndexStaysInRange | components/assessment/PersonalityQuiz.tsx:25-26 | answering, with either the handler as written or the intended one, and going back keep the question index within the quiz |
| PersonalityQuiz.CodeReflectsLastAnswer | components/assessment/PersonalityQuiz.tsx:21-42 | with distinct trait ids the intended handler's code reflects every recorded answer, the last one included |
| PersonalityQuiz.StaleLastAnswer | components/assessment/PersonalityQuiz.tsx:21-42 | on a four-question quiz answered a, a, a, a the handler as written yields "ESTP", the intended one "ESTJ" |
| Selector.Forwards | components/ui/Selector.tsx:25-33 | a press on a selected id is always passed on; with no limit (undefined or 0) every press is; an unselected id otherwise only while the selection is below the limit |
| Selector.ToggleWithinLimit | components/ui/Selector.tsx:25-33 | with a positive limit, a press passed on to a toggling parent never makes the selection longer than the limit |
| Selector.CategoryOf | components/ui/Selector.tsx:55 | an item is grouped under its category, or "Other" when the category is missing or empty |
| Selector.FindGroup | components/ui/Selector.tsx:56 | the group found is the first with that category; none iff no group has it |
| Selector.AddItem | components/ui/Selector.tsx:54-59 | one loop step keeps every existing group's category and items as a prefix, leaves groups of other categories untouched, adds at most one group, and ends with a group for the item's category that holds the item |
| Selector.AddItemKeepsWellFormed | components/ui/Selector.tsx:54-59 | one loop step keeps every group non-empty, holding only its own category's items, and no category twice |
| Selector.GroupByCategory | components/ui/Selector.tsx:53-60 | the grouping has at most one group per item, every group non-empty and holding only its own category's items, and no category twice |
| Selector.Categories | components/ui/Selector.tsx:53-62 | the group titles are exactly the item categories, each once |
| Selector.InCategory | components/ui/Selector.tsx:53-60 | the items listed under a category all belong to it, every item of that category is listed, and a category no item has lists nothing |
| Selector.GroupingIsByCategory | components/ui/Selector.tsx:53-62 | the grouping loop yields one group per category in order of first appearance, each holding exactly that category's items in their original order |
| Selector.EachItemInOneGroup | components/ui/Selector.tsx:53-60 | every item's category is the title of exactly one group; the item lies in a group iff that group is its category's, and looking its category up finds a group holding it |
| Lists.Toggle | components/assessment/InterestsSelector.tsx:24-26 | a present value is removed everywhere, an absent one appended; the value is in the result iff it was not in the list |
| InterestsSelector.HandleSelect | components/assessment/InterestsSelector.tsx:23-29 | a selected interest leaves the list with every other entry kept; an unselected one is appended at the end |
| InterestsSelector.Press | components/assessment/InterestsSelector.tsx:23-49 | a press on a selected interest removes it even at the limit; an unselected one is appended when there is no limit or the selection is below it, and ignored otherwise |
| InterestsSelector.IsComplete | components/assessment/InterestsSelector.tsx:31 | the step is complete iff at least one interest is selected |
| InterestsSelector.PressWithDefaultLimit | components/assessment/InterestsSelector.tsx:21-31 | with the default limit of five a duplicate-free selection stays duplicate-free and at most five long, and a first pick below the limit completes the step |
| InterestsSelector.SelectThenDeselect | components/assessment/InterestsSelector.tsx:23-26 | selecting an interest and deselecting it restores the selection |
| InterestsSelector.DeselectKeepsOrder | components/assessment/InterestsSelector.tsx:24-25 | deselecting keeps the other interests in their order |
| SkillsSelector.HandleSelect | components/assessment/SkillsSelector.tsx:23-29 | the skill step toggles exactly as the interest step does: a selected skill leaves the list, an unselected one is appended |
| SkillsSelector.Press | components/assessment/SkillsSelector.tsx:23-49 | a press on a selected skill removes it even at the limit; an unselected one is appended when there is no limit or the selection is below it, and ignored otherwise |
| SkillsSelector.IsComplete | components/assessment/SkillsSelector.tsx:31 | the step is complete iff at least one skill is selected |
| SkillsSelector.PressWithDefaultLimit | components/assessment/SkillsSelector.tsx:21-31 | with the default limit of five a duplicate-free selection stays duplicate-free and at most five long, and deselecting the only skill makes the step incomplete |
| AcademicScoreInput.HandleScoreChange | components/assessment/AcademicScoreInput.tsx:22-28 | only the rows with that subject id take the new score, ids and names kept, and the pair is passed on unchanged |
| AcademicScoreInput.ContinueDisabled | components/assessment/AcademicScoreInput.tsx:30 | Continue is disabled iff some subject has a score of 0 or less |
| AcademicScoreInput.IsComplete | components/assessment/AcademicScoreInput.tsx:30 | the step is complete iff every subject scores at least 1, so an empty list is complete |
| AcademicScoreInput.SliderKeepsComplete | components/assessment/AcademicScoreInput.tsx:22-30 | a slider change never makes a complete step incomplete |
| AcademicScoreInput.SliderCompletesLastSubject | components/assessment/AcademicScoreInput.tsx:22-30 | setting the last unscored subject from the slider completes the step |
| AcademicScoreInput.ScoringAllCompletes | components/assessment/AcademicScoreInput.tsx:22-30 | sliding every unscored subject, in any order, completes the step |
| Text.TrimEmptyIffBlank | app/auth/signup.tsx:45-47 | a string trims to "" iff every character is JavaScript whitespace |
| Text.Trim | app/auth/signup.tsx:45-47 | the trimmed text is a slice of the input with only whitespace cut on either side, and neither of its ends is whitespace |
| Text.Utf16Length | app/auth/signup.tsx:56 | the JavaScript length lies between the number of characters and twice it, and equals it iff no character lies outside the Basic Multilingual Plane |
| SignupForm.ValidateForm | app/auth/signup.tsx:37-51 | all fields become touched; the form is valid iff name, email and password are not blank and the confirmation equals the password exactly |
| SignupForm.NameError | app/auth/signup.tsx:100 | "Name is required" iff the field is touched and blank, otherwise no message |
| SignupForm.EmailError | app/auth/signup.tsx:116 | "Email is required" iff the field is touched and blank, otherwise no message |
| SignupForm.PasswordError | app/auth/signup.tsx:53-58 | nothing while untouched; then "required" for a blank password, the length message under six UTF-16 code units, nothing otherwise |
| SignupForm.ConfirmPasswordError | app/auth/signup.tsx:60-65 | nothing while untouched; then "Please confirm" for a blank confirmation, "do not match" for a differing one, nothing otherwise |
| SignupForm.HandleSignup | app/auth/signup.tsx:31-35 | the store's signup runs iff name, email and password are not blank and the confirmation matches; otherwise the store is untouched |
| SignupForm.PressExplainsItself | app/auth/signup.tsx:31-65 | after pressing "Create Account" the user is signed in or some field shows an error |
| SignupForm.ShortPasswordAccepted | app/auth/signup.tsx:45-56 | a confirmed five-character password passes validation and signs up, while the password field shows the length message |
| SignupForm.AstralCharacterCountsTwice | app/auth/signup.tsx:56 | a password of four letters and one emoji is five characters but six code units, so no length message appears |
| LoginForm.ValidateForm | app/auth/login.tsx:34-37 | both fields become touched; valid iff neither email nor password is blank |
| LoginForm.EmailError | app/auth/login.tsx:86 | "Email is required" iff the field is touched and blank |
| LoginForm.PasswordError | app/auth/login.tsx:101-105 | "Password is required" iff the field is touched and blank |
| LoginForm.HandleLogin | app/auth/login.tsx:28-32 | the store's login runs iff neither field is blank; otherwise the store is untouched |
| LoginForm.HandleDemoLogin | app/auth/login.tsx:39-43 | the fields are set to the demo credentials, which are submitted without validation |
| LoginForm.DemoLoginSignsIn | app/auth/login.tsx:39-43 | the demo button signs the demo user in from any store state |
| LoginForm.BlockedPressShowsError | app/auth/login.tsx:28-37 | a press that does not reach the store always leaves a field error visible |

## Left out

- The request itself (prompt text, headers, endpoint) and `response.json()`: the reply is an input, absent when the request fails and without completion text when the body is unusable.
- `JSON.parse` and the per-entry field reads: an abstract function from text to an optional parsed reply, whose entries always carry a string title, a string explanation and a score. A reply that is not JSON, or has no `recommendations` array, or, with a non-empty catalogue, an entry whose `careerTitle` is not a string throws in the source and falls back; the model treats all of these as a parse failure. Not modelled: an entry with a missing or non-string `explanation`, which the source passes on as an `undefined` (or foreign) description and explanation without failing; and, with an empty catalogue, an entry without `careerTitle`, which the source turns into a synthesised record whose title is `undefined`.
- `Math.random`: the signup number and the id suffixes of synthesised careers are parameters.
- The career and personality catalogues (`mockData`) and the initial quiz are parameters, not their literal contents.
- `console.error`, persistence to device storage, the one-second delays and concurrent store updates: each action is one atomic transition.
- The results, home, profile and tab screens, the careers store, colours, the UI widgets other than the selector, the progress bar and its percentages: presentation only.
- Router navigation is represented by the path the guard returns; `useSegments` by a path-splitting function.
- Text.ToLower: folds ASCII letters only, while JavaScript's `toLowerCase` folds all of Unicode, so titles differing in non-ASCII case are treated as different.
- Remote.FindByTitle: built on Text.ToLower, so a remote title that differs from a catalogue title only in non-ASCII letter case ("ÉCOLOGIST" against "écologist") finds no match and yields a synthesised record, where the source would reuse the catalogue record.
- Scorer.CareerScore: `Math.round` is the identity on the integer scores the model uses; fractional academic scores are not modelled.
- Selector.Forwards: a limit that is `NaN` or fractional is not modelled.
- UserStore.ApplyScores: keys other than the five subject names, and keys present with an undefined value, are not modelled.
- AuthStore.Signup: the `catch` branch cannot be reached in the source and is not modelled.
- Selector.GroupByCategory: `Object.entries` lists integer-like keys first in numeric order; the model keeps insertion order for every category name. The grouping object is a plain `{}`, so a category named after an inherited property ("constructor", "toString", "__proto__", …) finds a truthy non-array value and `push` throws, crashing the render; the model groups such a category like any other.
- The remote confidence score is taken to be an integer; a reply carrying another JSON value there is not modelled.

## Findings

| source | as written | input that shows it | evidently intended | confidence | as-written member | corrected member |
|---|---|---|---|---|---|---|
| components/assessment/PersonalityQuiz.tsx:21-42 | on the last question the code is computed from the `traits` prop captured before `onTraitChange` records the answer, so the fourth letter of a four-question quiz ignores the answer just given | a four-trait quiz answered a, a, a and then a on the still unanswered last trait: "ESTP" | the code reflects every recorded answer: "ESTJ" | medium, not executed | PersonalityQuiz.HandleAnswerAsWritten (PersonalityQuiz.StaleLastAnswer) | PersonalityQuiz.HandleAnswer (PersonalityQuiz.CodeReflectsLastAnswer) |
