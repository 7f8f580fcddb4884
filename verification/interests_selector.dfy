/** The interest step (`InterestsSelector`): a toggle list shown through a selector limited
    to five entries by default. */
module InterestsSelector {
  import opened Wrappers
  import opened Lists
  import Selector

  const DefaultMaxInterests := 5

  /** `handleSelect`: a selected interest is removed everywhere, another is appended. */
  function HandleSelect(selected: seq<string>, id: string): (r: seq<string>)
    ensures id in selected ==> multiset(r) == multiset(selected)[id := 0]
    ensures id !in selected ==> r == selected + [id]
    ensures id in r <==> id !in selected
  {
    Toggle(selected, id)
  }

  /** One press on an interest chip: the selector decides whether it reaches `handleSelect`. */
  function Press(selected: seq<string>, id: string, maxInterests: Option<int>): (r: seq<string>)
    ensures id in selected ==> multiset(r) == multiset(selected)[id := 0]
    ensures id !in selected && (Selector.Unlimited(maxInterests) || |selected| < maxInterests.value) ==> r == selected + [id]
    ensures id !in selected && !Selector.Unlimited(maxInterests) && |selected| >= maxInterests.value ==> r == selected
  {
    if Selector.Forwards(selected, id, maxInterests) then HandleSelect(selected, id) else selected
  }

  /** `isComplete`: Continue is enabled once at least one interest is chosen. */
  function IsComplete(selected: seq<string>): (b: bool)
    ensures b <==> exists id :: id in selected
  {
    if selected == [] then false
    else
      assert selected[0] in selected;
      true
  }

  /** With the default limit a selection of at most five interests never grows past five,
      stays duplicate-free, and pressing an unselected chip while below the limit
      completes the step. */
  lemma PressWithDefaultLimit(selected: seq<string>, id: string)
    requires |selected| <= DefaultMaxInterests && NoDup(selected)
    ensures |Press(selected, id, Some(DefaultMaxInterests))| <= DefaultMaxInterests
    ensures NoDup(Press(selected, id, Some(DefaultMaxInterests)))
    ensures id !in selected && |selected| < DefaultMaxInterests ==>
      IsComplete(Press(selected, id, Some(DefaultMaxInterests)))
  {
    Selector.ToggleWithinLimit(selected, id, DefaultMaxInterests);
    ToggleNoDup(selected, id);
  }

  /** Selecting a new interest and deselecting it again restores the selection. */
  lemma SelectThenDeselect(selected: seq<string>, id: string)
    requires id !in selected
    ensures HandleSelect(HandleSelect(selected, id), id) == selected
  {
    ToggleInOut(selected, id);
  }

  /** Deselecting keeps the other interests in their order. */
  lemma DeselectKeepsOrder(before: seq<string>, after: seq<string>, id: string)
    requires id !in before && id !in after
    ensures HandleSelect(before + [id] + after, id) == before + after
  {
    RemoveAllAppend(before + [id], after, id);
    RemoveAllAppend(before, [id], id);
    RemoveAllAbsent(before, id);
    RemoveAllAbsent(after, id);
    assert RemoveAll([id], id) == [];
    assert before + [] == before;
  }
}
