/** Properties of the fallback recommender, each relating several evaluations of it. */
module ScorerProperties {
  import opened Wrappers
  import opened Lists
  import opened Types
  import opened Scorer
  import Ranking

  /** Two profiles that agree, subject by subject, on whether the score exceeds 7 get the
      same score for every career: 7 counts like 0, 8 like 10, and social studies is never
      consulted. */
  lemma OnlyThresholdMatters(req: Request, scores': AcademicScores, types: seq<PersonalityType>, c: Career)
    requires (req.academicScores.math > Threshold) == (scores'.math > Threshold)
    requires (req.academicScores.science > Threshold) == (scores'.science > Threshold)
    requires (req.academicScores.english > Threshold) == (scores'.english > Threshold)
    requires (req.academicScores.arts > Threshold) == (scores'.arts > Threshold)
    ensures CareerScore(req.(academicScores := scores'), types, c) == CareerScore(req, types, c)
  {
    assert AcademicPoints(scores', c.matchingTags) == AcademicPoints(req.academicScores, c.matchingTags);
    assert RawScore(req.(academicScores := scores'), types, c) == RawScore(req, types, c);
  }

  /** Raising any subject scores never lowers a career's score. */
  lemma ScoreMonotone(req: Request, scores': AcademicScores, types: seq<PersonalityType>, c: Career)
    requires req.academicScores.math <= scores'.math
    requires req.academicScores.science <= scores'.science
    requires req.academicScores.english <= scores'.english
    requires req.academicScores.arts <= scores'.arts
    ensures CareerScore(req, types, c) <= CareerScore(req.(academicScores := scores'), types, c)
  {
  }

  /** Mathematics going from 7 to 8 adds exactly 20 (before the clamp) to careers tagged
      "Mathematics" and changes no other career's score. */
  lemma MathSevenToEight(req: Request, types: seq<PersonalityType>, c: Career)
    requires req.academicScores.math == 7
    ensures var raised := req.(academicScores := req.academicScores.(math := 8));
      && RawScore(raised, types, c)
         == RawScore(req, types, c) + (if "Mathematics" in c.matchingTags then SubjectBonus else 0)
      && ("Mathematics" !in c.matchingTags ==> CareerScore(raised, types, c) == CareerScore(req, types, c))
      && CareerScore(raised, types, c) >= CareerScore(req, types, c)
  {
  }

  /** A strong english score earns its bonus once, even when a career carries both the
      "Communication" and the "Writing" tag. */
  lemma EnglishBonusOnce(scores: AcademicScores, tags: seq<string>)
    requires scores.english > Threshold
    requires "Communication" in tags && "Writing" in tags
    ensures AcademicPoints(scores, tags) == AcademicPoints(scores.(english := 0), tags) + SubjectBonus
  {
  }

  /** The four subjects the recommender reads, named independently of the scoring code. */
  datatype Subject = Mathematics | Science | English | Arts

  const AllSubjects: seq<Subject> := [Mathematics, Science, English, Arts]

  function ScoreOf(scores: AcademicScores, s: Subject): int
  {
    match s
    case Mathematics => scores.math
    case Science => scores.science
    case English => scores.english
    case Arts => scores.arts
  }

  function WithScore(scores: AcademicScores, s: Subject, v: int): AcademicScores
  {
    match s
    case Mathematics => scores.(math := v)
    case Science => scores.(science := v)
    case English => scores.(english := v)
    case Arts => scores.(arts := v)
  }

  /** The career tags that count for a subject: english is matched by either of two. */
  predicate TaggedFor(s: Subject, tags: seq<string>)
  {
    match s
    case Mathematics => "Mathematics" in tags
    case Science => "Science" in tags
    case English => "Communication" in tags || "Writing" in tags
    case Arts => "Art" in tags
  }

  predicate Qualifies(scores: AcademicScores, tags: seq<string>, s: Subject)
  {
    ScoreOf(scores, s) > Threshold && TaggedFor(s, tags)
  }

  /** The subjects of `subjects` that earn their bonus, in order. */
  function Qualifying(scores: AcademicScores, tags: seq<string>, subjects: seq<Subject>): (r: seq<Subject>)
    ensures |r| <= |subjects|
    ensures forall k :: 0 <= k < |r| ==> r[k] in subjects && Qualifies(scores, tags, r[k])
    ensures forall k :: 0 <= k < |subjects| && Qualifies(scores, tags, subjects[k]) ==> subjects[k] in r
  {
    if subjects == [] then []
    else
      var rest := Qualifying(scores, tags, subjects[1..]);
      assert forall k :: 1 <= k < |subjects| ==> subjects[k] == subjects[1..][k - 1];
      if Qualifies(scores, tags, subjects[0]) then [subjects[0]] + rest else rest
  }

  /** The academic part is 20 per qualifying subject, and nothing else. */
  lemma {:induction false} AcademicPointsCountsQualifying(scores: AcademicScores, tags: seq<string>)
    ensures AcademicPoints(scores, tags) == SubjectBonus * |Qualifying(scores, tags, AllSubjects)|
  {
    QualifyingCons(scores, tags, Arts, []);
    QualifyingCons(scores, tags, English, [Arts]);
    QualifyingCons(scores, tags, Science, [English, Arts]);
    QualifyingCons(scores, tags, Mathematics, [Science, English, Arts]);
    assert [Mathematics] + [Science, English, Arts] == AllSubjects;
  }

  /** A subject in front adds one to the qualifying count exactly when it qualifies. */
  lemma QualifyingCons(scores: AcademicScores, tags: seq<string>, s: Subject, rest: seq<Subject>)
    ensures |Qualifying(scores, tags, [s] + rest)|
      == (if Qualifies(scores, tags, s) then 1 else 0) + |Qualifying(scores, tags, rest)|
  {
    assert ([s] + rest)[1..] == rest;
  }

  /** One subject crossing the threshold from 7 or below, the others unchanged, raises
      the unclamped score by exactly 20 when the career carries that subject's tag and
      leaves it unchanged otherwise. */
  lemma SubjectCrossesThreshold(req: Request, s: Subject, v: int, types: seq<PersonalityType>, c: Career)
    requires ScoreOf(req.academicScores, s) <= Threshold < v
    ensures RawScore(req.(academicScores := WithScore(req.academicScores, s, v)), types, c)
      == RawScore(req, types, c) + (if TaggedFor(s, c.matchingTags) then SubjectBonus else 0)
  {
  }

  /** The personality part adds its 0 or 25 on top of everything else. */
  lemma PersonalityAdds(req: Request, types: seq<PersonalityType>, c: Career)
    ensures RawScore(req, types, c)
      == RawScore(req.(personalityType := ""), types, c) + PersonalityPoints(req.personalityType, types, c.title)
  {
  }

  /** Every interest entry found among the tags adds 15, counted per entry: a longer
      interest list scores the sum of its parts, duplicates included. */
  lemma InterestsAdd(req: Request, more: seq<string>, types: seq<PersonalityType>, c: Career)
    ensures RawScore(req.(interests := req.interests + more), types, c)
      == RawScore(req, types, c) + MatchBonus * CountIn(more, c.matchingTags)
  {
    CountInAppend(req.interests, more, c.matchingTags);
  }

  /** Every skill entry found among the required skills adds 15, counted per entry. */
  lemma SkillsAdd(req: Request, more: seq<string>, types: seq<PersonalityType>, c: Career)
    ensures RawScore(req.(skills := req.skills + more), types, c)
      == RawScore(req, types, c) + MatchBonus * CountIn(more, c.requiredSkills)
  {
    CountInAppend(req.skills, more, c.requiredSkills);
  }

  /** A repeated matching interest is counted each time it appears. */
  lemma RepeatedInterestCountsTwice(req: Request, x: string, types: seq<PersonalityType>, c: Career)
    requires req.interests == [] && x in c.matchingTags
    ensures RawScore(req.(interests := [x, x]), types, c) == RawScore(req, types, c) + 2 * MatchBonus
  {
    InterestsAdd(req, [x, x], types, c);
    assert CountIn([x, x], c.matchingTags) == 2;
  }

  /** The personality bonus is earned exactly when the code is non-empty and the first
      catalogue type carrying that code lists the career's exact title. */
  lemma PersonalityBonusIff(code: string, types: seq<PersonalityType>, title: string)
    ensures PersonalityPoints(code, types, title) == PersonalityBonus <==>
      code != "" &&
      exists k :: 0 <= k < |types| && types[k].code == code && title in types[k].careers &&
        forall i :: 0 <= i < k ==> types[i].code != code
  {
    var f := FindType(types, code);
    if code != "" && f.Some? {
      forall k | 0 <= k < |types| && types[k].code == code &&
        (forall i :: 0 <= i < k ==> types[i].code != code)
        ensures k == f.value
      {
      }
    }
  }

  /** A career left out of the recommendations scores no more than any career that was
      recommended: the cut keeps the best five. */
  lemma FallbackKeepsBest(req: Request, catalog: seq<Career>, types: seq<PersonalityType>, i: nat)
    requires i < |catalog|
    requires i !in Ranked(req, types, catalog)[..Min(TopCount, |catalog|)]
    ensures forall k :: 0 <= k < |FallbackRecommendations(req, catalog, types)| ==>
      FallbackRecommendations(req, catalog, types)[k].confidenceScore.value
        >= CareerScore(req, types, catalog[i])
  {
    var scores := CatalogScores(req, types, catalog);
    var order := Ranked(req, types, catalog);
    assert Ranking.Chain(scores, order) by {
      forall p, q | 0 <= p < q < |order| ensures Ranking.Before(scores, order[p], order[q]) {
        assert order[p] != order[q];
      }
    }
    Ranking.PrefixIsBest(scores, order, Min(TopCount, |catalog|), i);
  }

  /** The ranking is the one any stable sort by descending score produces. */
  lemma FallbackOrderIsStableSort(req: Request, catalog: seq<Career>, types: seq<PersonalityType>, s: seq<nat>)
    requires forall k :: 0 <= k < |s| ==> s[k] < |catalog|
    requires forall i :: 0 <= i < |catalog| ==> i in s
    requires forall p, q :: 0 <= p < q < |s| ==>
      CareerScore(req, types, catalog[s[p]]) >= CareerScore(req, types, catalog[s[q]])
    requires forall p, q ::
      (0 <= p < q < |s| && CareerScore(req, types, catalog[s[p]]) == CareerScore(req, types, catalog[s[q]]))
      ==> s[p] < s[q]
    ensures s == Ranked(req, types, catalog)
  {
    var scores := CatalogScores(req, types, catalog);
    Ranking.StableSortIsRank(scores, s);
  }

  function SampleCareer(title: string, tags: seq<string>): Career
  {
    Career("c", title, "", [], tags, "", "", "", None, None)
  }

  /** Mathematics 9, science 9, interest "tech", no skills and no personality against a
      career tagged "Mathematics", "Science" and "tech": 20 + 20 + 15 = 55. */
  lemma ScenarioSoftwareEngineer(types: seq<PersonalityType>)
    ensures CareerScore(
      Request(AcademicScores(9, 9, 0, 0, 0), ["tech"], [], ""),
      types,
      SampleCareer("Software Engineer", ["Mathematics", "Science", "tech"])) == 55
  {
    var tags := ["Mathematics", "Science", "tech"];
    assert "tech" in tags && "Mathematics" in tags && "Science" in tags;
    assert "Communication" !in tags && "Writing" !in tags && "Art" !in tags;
    assert CountIn(["tech"], tags) == 1;
  }

  /** Personality "INTJ" favouring "Data Scientist", and nothing else matching: 25. */
  lemma ScenarioDataScientist()
    ensures CareerScore(
      Request(AcademicScores(0, 0, 0, 0, 0), [], [], "INTJ"),
      [PersonalityType("INTJ", "Architect", "", ["Data Scientist"])],
      SampleCareer("Data Scientist", [])) == 25
  {
    var types := [PersonalityType("INTJ", "Architect", "", ["Data Scientist"])];
    assert FindType(types, "INTJ") == Some(0);
  }
}
