/** The skill step (`SkillsSelector`): the same toggle rule and default limit of five as the
    interest step, over skills. */
module SkillsSelector {
  import opened Wrappers
  import opened Lists
  import Selector
  import InterestsSelector

  const DefaultMaxSkills := 5

  /** `handleSelect`: the skill step's handler is the interest step's toggle rule over
      skill ids: a selected skill is removed everywhere, another is appended. */
  function HandleSelect(selected: seq<string>, id: string): (r: seq<string>)
    ensures r == InterestsSelector.HandleSelect(selected, id)
  {
    Toggle(selected, id)
  }

  /** One press on a skill chip: the selector decides whether it reaches `handleSelect`. */
  function Press(selected: seq<string>, id: string, maxSkills: Option<int>): (r: seq<string>)
    ensures id in selected ==> multiset(r) == multiset(selected)[id := 0]
    ensures id !in selected && (Selector.Unlimited(maxSkills) || |selected| < maxSkills.value) ==> r == selected + [id]
    ensures id !in selected && !Selector.Unlimited(maxSkills) && |selected| >= maxSkills.value ==> r == selected
  {
    if Selector.Forwards(selected, id, maxSkills) then HandleSelect(selected, id) else selected
  }

  /** `isComplete`: Continue is enabled once at least one skill is chosen. */
  function IsComplete(selected: seq<string>): (b: bool)
    ensures b <==> exists id :: id in selected
  {
    if selected == [] then false
    else
      assert selected[0] in selected;
      true
  }

  /** With the default limit a selection of at most five skills never grows past five,
      stays duplicate-free, and deselecting the only skill makes the step incomplete. */
  lemma PressWithDefaultLimit(selected: seq<string>, id: string)
    requires |selected| <= DefaultMaxSkills && NoDup(selected)
    ensures |Press(selected, id, Some(DefaultMaxSkills))| <= DefaultMaxSkills
    ensures NoDup(Press(selected, id, Some(DefaultMaxSkills)))
    ensures selected == [id] ==> !IsComplete(Press(selected, id, Some(DefaultMaxSkills)))
  {
    Selector.ToggleWithinLimit(selected, id, DefaultMaxSkills);
    ToggleNoDup(selected, id);
    if selected == [id] {
      assert RemoveAll([id], id) == [];
    }
  }
}
