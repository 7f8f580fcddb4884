/** The deterministic fallback recommender (`getFallbackRecommendations`): an integer
    score per catalogue career, clamped at 100, a stable sort by descending score and a
    cut to the first five. The career and personality catalogues are parameters. */
module Scorer {
  import opened Wrappers
  import opened Lists
  import opened Types
  import Ranking

  /** What the recommender is asked about: the profile fields it reads. */
  datatype Request = Request(
    academicScores: AcademicScores,
    interests: seq<string>,
    skills: seq<string>,
    personalityType: string)

  /** A subject score must exceed this to earn its bonus. */
  const Threshold := 7
  const SubjectBonus := 20
  const MatchBonus := 15
  const PersonalityBonus := 25
  const MaxScore := 100
  const TopCount := 5

  function Min(a: int, b: int): (m: int)
    ensures m <= a && m <= b && (m == a || m == b)
  {
    if a <= b then a else b
  }

  /** The bonus one subject earns: only a score strictly above the threshold together
      with a matching tag earns anything. */
  function Bonus(score: int, tagged: bool): (b: int)
    ensures b == 0 || b == SubjectBonus
    ensures b == SubjectBonus <==> score > Threshold && tagged
  {
    if score > Threshold && tagged then SubjectBonus else 0
  }

  /** Academic strengths: mathematics, science, english (either of two tags, at most once)
      and arts; social studies is never read. */
  function AcademicPoints(scores: AcademicScores, tags: seq<string>): (p: int)
    ensures p in {0, SubjectBonus, 2 * SubjectBonus, 3 * SubjectBonus, 4 * SubjectBonus}
    ensures scores.math > Threshold && "Mathematics" in tags ==> p >= SubjectBonus
    ensures scores.science > Threshold && "Science" in tags ==> p >= SubjectBonus
    ensures scores.english > Threshold && ("Communication" in tags || "Writing" in tags) ==> p >= SubjectBonus
    ensures scores.arts > Threshold && "Art" in tags ==> p >= SubjectBonus
    ensures p == 0 <==>
      && !(scores.math > Threshold && "Mathematics" in tags)
      && !(scores.science > Threshold && "Science" in tags)
      && !(scores.english > Threshold && ("Communication" in tags || "Writing" in tags))
      && !(scores.arts > Threshold && "Art" in tags)
    ensures (forall i :: 0 <= i < |tags| ==> tags[i] !in ["Mathematics", "Science", "Communication", "Writing", "Art"]) ==> p == 0
  {
    Bonus(scores.math, "Mathematics" in tags)
    + Bonus(scores.science, "Science" in tags)
    + Bonus(scores.english, "Communication" in tags || "Writing" in tags)
    + Bonus(scores.arts, "Art" in tags)
  }

  /** `PERSONALITY_TYPES.find(t => t.code === code)`: the first type with exactly that code. */
  function FindType(types: seq<PersonalityType>, code: string): (r: Option<nat>)
    ensures r.None? <==> forall i :: 0 <= i < |types| ==> types[i].code != code
    ensures r.Some? ==> r.value < |types| && types[r.value].code == code
    ensures r.Some? ==> forall i :: 0 <= i < r.value ==> types[i].code != code
  {
    FindFirst(types, (t: PersonalityType) => t.code == code)
  }

  /** The personality bonus for a career title. */
  function PersonalityPoints(code: string, types: seq<PersonalityType>, title: string): (p: int)
    ensures p == 0 || p == PersonalityBonus
    ensures code == "" ==> p == 0
    ensures (forall i :: 0 <= i < |types| ==> types[i].code != code || title !in types[i].careers) ==> p == 0
    ensures p == PersonalityBonus ==>
      exists k :: 0 <= k < |types| && types[k].code == code && title in types[k].careers
  {
    if code == "" then 0
    else match FindType(types, code)
      case None => 0
      case Some(k) => if title in types[k].careers then PersonalityBonus else 0
  }

  /** The unclamped score of one career: at least the academic and the personality parts, at most every bonus earned once per entry, and zero exactly when
      no part earns anything. */
  function RawScore(req: Request, types: seq<PersonalityType>, c: Career): (s: int)
    ensures s >= 0
    ensures s >= AcademicPoints(req.academicScores, c.matchingTags)
    ensures s >= PersonalityPoints(req.personalityType, types, c.title)
    ensures s <= 4 * SubjectBonus + MatchBonus * (|req.interests| + |req.skills|) + PersonalityBonus
    ensures s == 0 <==>
      && AcademicPoints(req.academicScores, c.matchingTags) == 0
      && (forall i :: 0 <= i < |req.interests| ==> req.interests[i] !in c.matchingTags)
      && (forall i :: 0 <= i < |req.skills| ==> req.skills[i] !in c.requiredSkills)
      && PersonalityPoints(req.personalityType, types, c.title) == 0
  {
    AcademicPoints(req.academicScores, c.matchingTags)
    + MatchBonus * CountIn(req.interests, c.matchingTags)
    + MatchBonus * CountIn(req.skills, c.requiredSkills)
    + PersonalityPoints(req.personalityType, types, c.title)
  }

  /** The confidence score: the raw score clamped at 100. */
  function CareerScore(req: Request, types: seq<PersonalityType>, c: Career): (s: int)
    ensures 0 <= s <= MaxScore
    ensures s <= RawScore(req, types, c)
    ensures RawScore(req, types, c) <= MaxScore ==> s == RawScore(req, types, c)
    ensures RawScore(req, types, c) > MaxScore ==> s == MaxScore
  {
    Min(RawScore(req, types, c), MaxScore)
  }

  /** The scores of the catalogue, position by position. */
  function CatalogScores(req: Request, types: seq<PersonalityType>, catalog: seq<Career>): (s: seq<int>)
    ensures |s| == |catalog|
    ensures forall i :: 0 <= i < |catalog| ==> s[i] == CareerScore(req, types, catalog[i])
  {
    seq(|catalog|, i requires 0 <= i < |catalog| => CareerScore(req, types, catalog[i]))
  }

  /** The catalogue positions in recommendation order. */
  function Ranked(req: Request, types: seq<PersonalityType>, catalog: seq<Career>): (r: seq<nat>)
    ensures |r| == |catalog|
    ensures forall k :: 0 <= k < |r| ==> r[k] < |catalog|
    ensures forall i :: 0 <= i < |catalog| ==> i in r
    ensures NoDup(r)
    ensures forall p, q :: 0 <= p < q < |r| ==>
      CareerScore(req, types, catalog[r[p]]) >= CareerScore(req, types, catalog[r[q]])
    ensures forall p, q ::
      (0 <= p < q < |r| && CareerScore(req, types, catalog[r[p]]) == CareerScore(req, types, catalog[r[q]]))
      ==> r[p] < r[q]
  {
    Ranking.Rank(CatalogScores(req, types, catalog))
  }

  /** A catalogue record carrying its confidence score; every other field is kept. */
  function Scored(req: Request, types: seq<PersonalityType>, c: Career): Career
  {
    c.(confidenceScore := Some(CareerScore(req, types, c)))
  }

  /** `getFallbackRecommendations`: the five best careers, each a catalogue record with
      only its confidence score replaced, best first, ties in catalogue order. */
  function FallbackRecommendations(req: Request, catalog: seq<Career>, types: seq<PersonalityType>): (r: seq<Career>)
    ensures |r| == Min(TopCount, |catalog|)
    ensures forall k :: 0 <= k < |r| ==> r[k] == Scored(req, types, catalog[Ranked(req, types, catalog)[k]])
    ensures forall k :: 0 <= k < |r| ==>
      r[k].confidenceScore.Some? && 0 <= r[k].confidenceScore.value <= MaxScore
    ensures forall p, q :: 0 <= p < q < |r| ==>
      r[p].confidenceScore.value >= r[q].confidenceScore.value
    ensures forall p, q :: 0 <= p < q < |r| && r[p].confidenceScore.value == r[q].confidenceScore.value ==>
      Ranked(req, types, catalog)[p] < Ranked(req, types, catalog)[q]
  {
    var order := Ranked(req, types, catalog);
    var r := seq(Min(TopCount, |catalog|), k requires 0 <= k < Min(TopCount, |catalog|) =>
      Scored(req, types, catalog[order[k]]));
    TopIsOrdered(req, types, catalog, r);
    r
  }

  /** A prefix of the ranking, scored, carries scores in range, best first, ties in
      catalogue order. */
  lemma TopIsOrdered(req: Request, types: seq<PersonalityType>, catalog: seq<Career>, r: seq<Career>)
    requires |r| <= |catalog|
    requires forall k :: 0 <= k < |r| ==> r[k] == Scored(req, types, catalog[Ranked(req, types, catalog)[k]])
    ensures forall k :: 0 <= k < |r| ==>
      r[k].confidenceScore.Some? && 0 <= r[k].confidenceScore.value <= MaxScore
    ensures forall p, q :: 0 <= p < q < |r| ==>
      r[p].confidenceScore.value >= r[q].confidenceScore.value
    ensures forall p, q :: 0 <= p < q < |r| && r[p].confidenceScore.value == r[q].confidenceScore.value ==>
      Ranked(req, types, catalog)[p] < Ranked(req, types, catalog)[q]
  {
    var order := Ranked(req, types, catalog);
    forall k | 0 <= k < |r|
      ensures r[k].confidenceScore == Some(CareerScore(req, types, catalog[order[k]]))
    {
    }
  }
}
