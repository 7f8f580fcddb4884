/** The profile store (`useUserStore`): the current user's profile, or none, with one
    pure transition per store action. Persistence to device storage is not modelled. */
module UserStore {
  import opened Wrappers
  import opened Types
  import opened Lists

  datatype State = State(profile: Option<User>, isLoading: bool, error: Option<string>)

  /** The store before any action: no profile, not loading, no error. */
  const Initial := State(None, false, None)

  /** The subject names a score update may carry, mapped to new values. Keys other than
      the five subject names are ignored by the model (see README). */
  type ScorePatch = map<string, int>

  /** `{ ...scores, ...patch }`: each subject named in the patch takes the patch's value,
      the others keep theirs. */
  function ApplyScores(s: AcademicScores, patch: ScorePatch): (r: AcademicScores)
    ensures r.math == (if "math" in patch then patch["math"] else s.math)
    ensures r.science == (if "science" in patch then patch["science"] else s.science)
    ensures r.english == (if "english" in patch then patch["english"] else s.english)
    ensures r.socialStudies == (if "socialStudies" in patch then patch["socialStudies"] else s.socialStudies)
    ensures r.arts == (if "arts" in patch then patch["arts"] else s.arts)
  {
    AcademicScores(
      if "math" in patch then patch["math"] else s.math,
      if "science" in patch then patch["science"] else s.science,
      if "english" in patch then patch["english"] else s.english,
      if "socialStudies" in patch then patch["socialStudies"] else s.socialStudies,
      if "arts" in patch then patch["arts"] else s.arts)
  }

  /** An empty patch changes nothing. */
  lemma ApplyEmptyPatch(s: AcademicScores)
    ensures ApplyScores(s, map[]) == s
  {
  }

  /** Two successive patches act like one merged patch in which the later values win. */
  lemma ApplyScoresCompose(s: AcademicScores, p1: ScorePatch, p2: ScorePatch)
    ensures ApplyScores(ApplyScores(s, p1), p2) == ApplyScores(s, p1 + p2)
  {
  }

  /** The profile every new session starts from: all scores 0, nothing selected or saved,
      no personality code. */
  function NewProfile(userId: string, name: string, email: string): (u: User)
    ensures u.id == userId && u.name == name && u.email == email
    ensures u.academicScores == AcademicScores(0, 0, 0, 0, 0)
    ensures u.interests == [] && u.skills == [] && u.savedCareers == []
    ensures u.personalityType == ""
  {
    User(userId, name, email, AcademicScores(0, 0, 0, 0, 0), [], [], "", [])
  }

  /** `initializeProfile`: a fresh profile replaces whatever was there. */
  function InitializeProfile(st: State, userId: string, name: string, email: string): (r: State)
    ensures r.profile == Some(NewProfile(userId, name, email))
    ensures r.isLoading == st.isLoading && r.error == st.error
  {
    st.(profile := Some(NewProfile(userId, name, email)))
  }

  /** `updateAcademicScores`: only the supplied subjects change; without a profile nothing does. */
  function UpdateAcademicScores(st: State, patch: ScorePatch): (r: State)
    ensures st.profile.None? ==> r == st
    ensures st.profile.Some? ==>
      && r.profile.Some?
      && r.profile.value.(academicScores := st.profile.value.academicScores) == st.profile.value
      && r.profile.value.academicScores == ApplyScores(st.profile.value.academicScores, patch)
      && r.isLoading == st.isLoading && r.error == st.error
  {
    match st.profile
    case None => st
    case Some(p) => st.(profile := Some(p.(academicScores := ApplyScores(p.academicScores, patch))))
  }

  /** `updateInterests`: the interest list is replaced, nothing else changes. */
  function UpdateInterests(st: State, interests: seq<string>): (r: State)
    ensures st.profile.None? ==> r == st
    ensures st.profile.Some? ==>
      && r.profile.Some?
      && r.profile.value.interests == interests
      && r.profile.value.(interests := st.profile.value.interests) == st.profile.value
      && r.isLoading == st.isLoading && r.error == st.error
  {
    match st.profile
    case None => st
    case Some(p) => st.(profile := Some(p.(interests := interests)))
  }

  /** `updateSkills`: the skill list is replaced, nothing else changes. */
  function UpdateSkills(st: State, skills: seq<string>): (r: State)
    ensures st.profile.None? ==> r == st
    ensures st.profile.Some? ==>
      && r.profile.Some?
      && r.profile.value.skills == skills
      && r.profile.value.(skills := st.profile.value.skills) == st.profile.value
      && r.isLoading == st.isLoading && r.error == st.error
  {
    match st.profile
    case None => st
    case Some(p) => st.(profile := Some(p.(skills := skills)))
  }

  /** `updatePersonalityType`: the personality code is replaced, nothing else changes. */
  function UpdatePersonalityType(st: State, code: string): (r: State)
    ensures st.profile.None? ==> r == st
    ensures st.profile.Some? ==>
      && r.profile.Some?
      && r.profile.value.personalityType == code
      && r.profile.value.(personalityType := st.profile.value.personalityType) == st.profile.value
      && r.isLoading == st.isLoading && r.error == st.error
  {
    match st.profile
    case None => st
    case Some(p) => st.(profile := Some(p.(personalityType := code)))
  }

  /** `saveCareer`: an id not yet saved is appended at the end; a saved one changes nothing. */
  function SaveCareer(st: State, id: string): (r: State)
    ensures st.profile.None? ==> r == st
    ensures st.profile.Some? && id in st.profile.value.savedCareers ==> r == st
    ensures st.profile.Some? && id !in st.profile.value.savedCareers ==>
      && r.profile.Some?
      && r.profile.value.savedCareers == st.profile.value.savedCareers + [id]
      && r.profile.value.(savedCareers := st.profile.value.savedCareers) == st.profile.value
      && r.isLoading == st.isLoading && r.error == st.error
  {
    match st.profile
    case None => st
    case Some(p) =>
      if id in p.savedCareers then st
      else st.(profile := Some(p.(savedCareers := p.savedCareers + [id])))
  }

  /** `removeCareer`: every occurrence of the id is dropped, the rest keep their order. */
  function RemoveCareer(st: State, id: string): (r: State)
    ensures st.profile.None? ==> r == st
    ensures st.profile.Some? ==>
      && r.profile.Some?
      && r.profile.value.savedCareers == RemoveAll(st.profile.value.savedCareers, id)
      && r.profile.value.(savedCareers := st.profile.value.savedCareers) == st.profile.value
      && r.isLoading == st.isLoading && r.error == st.error
  {
    match st.profile
    case None => st
    case Some(p) => st.(profile := Some(p.(savedCareers := RemoveAll(p.savedCareers, id))))
  }

  /** `clearProfile`. */
  function ClearProfile(st: State): (r: State)
    ensures r.profile.None?
    ensures r.isLoading == st.isLoading && r.error == st.error
  {
    st.(profile := None)
  }

  /** The store invariant: the saved-career list never holds an id twice. */
  predicate Valid(st: State)
  {
    st.profile.Some? ==> NoDup(st.profile.value.savedCareers)
  }

  /** Every action keeps the saved-career list duplicate-free. */
  lemma ActionsPreserveValid(st: State, patch: ScorePatch, xs: seq<string>, code: string, id: string,
                             userId: string, name: string, email: string)
    requires Valid(st)
    ensures Valid(Initial)
    ensures Valid(InitializeProfile(st, userId, name, email))
    ensures Valid(UpdateAcademicScores(st, patch))
    ensures Valid(UpdateInterests(st, xs))
    ensures Valid(UpdateSkills(st, xs))
    ensures Valid(UpdatePersonalityType(st, code))
    ensures Valid(SaveCareer(st, id))
    ensures Valid(RemoveCareer(st, id))
    ensures Valid(ClearProfile(st))
  {
    if st.profile.Some? {
      var saved := st.profile.value.savedCareers;
      if id !in saved {
        AppendFreshNoDup(saved, id);
      }
      RemoveAllNoDup(saved, id);
    }
  }

  /** Saving is idempotent. */
  lemma SaveIdempotent(st: State, id: string)
    ensures SaveCareer(SaveCareer(st, id), id) == SaveCareer(st, id)
  {
  }

  /** Removing an id that is not saved changes nothing. */
  lemma RemoveAbsentIsNoOp(st: State, id: string)
    requires st.profile.Some? ==> id !in st.profile.value.savedCareers
    ensures RemoveCareer(st, id) == st
  {
    if st.profile.Some? {
      RemoveAllAbsent(st.profile.value.savedCareers, id);
    }
  }

  /** Saving a fresh id and removing it again restores the store. */
  lemma SaveThenRemoveRestores(st: State, id: string)
    requires st.profile.Some? ==> id !in st.profile.value.savedCareers
    ensures RemoveCareer(SaveCareer(st, id), id) == st
  {
    if st.profile.Some? {
      var saved := st.profile.value.savedCareers;
      RemoveAllAppend(saved, [id], id);
      RemoveAllAbsent(saved, id);
      assert RemoveAll([id], id) == [];
      assert RemoveAll(saved + [id], id) == saved + [];
      assert saved + [] == saved;
      var p := st.profile.value;
      assert SaveCareer(st, id) == st.(profile := Some(p.(savedCareers := saved + [id])));
      assert p.(savedCareers := saved) == p;
    }
  }
}
