/** The selector widget (`Selector`): the limit on new selections and the grouping of
    its items by category. */
module Selector {
  import opened Wrappers
  import opened Types
  import opened Lists

  /** `!maxItems`: no limit when the limit is undefined or 0. */
  predicate Unlimited(maxItems: Option<int>)
  {
    maxItems.None? || maxItems.value == 0
  }

  /** `handleSelect`: whether a press on `id` is passed on to the parent. A selected id is
      always passed on, so it can be deselected even at the limit; an unselected one only
      while the selection is below the limit. */
  function Forwards(selectedIds: seq<string>, id: string, maxItems: Option<int>): (b: bool)
    ensures id in selectedIds ==> b
    ensures Unlimited(maxItems) ==> b
    ensures id !in selectedIds && !Unlimited(maxItems) ==> (b <==> |selectedIds| < maxItems.value)
  {
    id in selectedIds || Unlimited(maxItems) || |selectedIds| < maxItems.value
  }

  /** Forwarding a press on an unselected id grows the selection by one at most up to the
      limit: a parent that toggles never pushes a selection past a positive limit. */
  lemma ToggleWithinLimit(selectedIds: seq<string>, id: string, limit: int)
    requires limit > 0 && |selectedIds| <= limit
    ensures var after := if Forwards(selectedIds, id, Some(limit)) then Toggle(selectedIds, id) else selectedIds;
      |after| <= limit
  {
  }

  /** The group an item is shown under: its category, or "Other" when that is missing or empty. */
  function CategoryOf(item: SelectorItem): (c: string)
    ensures item.category.Some? && item.category.value != "" ==> c == item.category.value
    ensures item.category.None? || item.category.value == "" ==> c == "Other"
  {
    match item.category
    case Some(c) => if c == "" then "Other" else c
    case None => "Other"
  }

  datatype Group = Group(category: string, items: seq<SelectorItem>)

  /** The position of the group for `category`, if there is one yet. */
  function FindGroup(groups: seq<Group>, category: string): (r: Option<nat>)
    ensures r.None? <==> forall k :: 0 <= k < |groups| ==> groups[k].category != category
    ensures r.Some? ==> r.value < |groups| && groups[r.value].category == category
    ensures r.Some? ==> forall k :: 0 <= k < r.value ==> groups[k].category != category
  {
    FindFirst(groups, (g: Group) => g.category == category)
  }

  /** A group as the grouping loop keeps it: non-empty, holding only items of its category. */
  predicate GroupOk(g: Group)
  {
    g.items != [] && forall j :: 0 <= j < |g.items| ==> CategoryOf(g.items[j]) == g.category
  }

  /** Groups as the grouping loop keeps them: each one sound, and no category twice. */
  predicate WellFormed(groups: seq<Group>)
  {
    && (forall k :: 0 <= k < |groups| ==> GroupOk(groups[k]))
    && (forall k, l :: 0 <= k < l < |groups| ==> groups[k].category != groups[l].category)
  }

  /** One step of the grouping loop: push the item onto its category's group, creating the
      group at the end when the category is new. */
  function AddItem(groups: seq<Group>, item: SelectorItem): (r: seq<Group>)
    ensures |r| == |groups| || |r| == |groups| + 1
    ensures forall k :: 0 <= k < |groups| ==>
      r[k].category == groups[k].category && groups[k].items <= r[k].items
    ensures forall k :: 0 <= k < |groups| && groups[k].category != CategoryOf(item) ==> r[k] == groups[k]
    ensures FindGroup(r, CategoryOf(item)).Some?
    ensures item in r[FindGroup(r, CategoryOf(item)).value].items
  {
    var c := CategoryOf(item);
    match FindGroup(groups, c)
    case Some(k) =>
      var r := groups[k := Group(c, groups[k].items + [item])];
      assert r[k].items[|r[k].items| - 1] == item;
      r
    case None =>
      var r := groups + [Group(c, [item])];
      assert r[|groups|].items[0] == item;
      r
  }

  /** Pushing an item keeps the groups well formed. */
  lemma AddItemKeepsWellFormed(groups: seq<Group>, item: SelectorItem)
    requires WellFormed(groups)
    ensures WellFormed(AddItem(groups, item))
  {
    var c := CategoryOf(item);
    var r := AddItem(groups, item);
    match FindGroup(groups, c)
    case Some(k) =>
      assert r == groups[k := Group(c, groups[k].items + [item])];
      assert GroupOk(r[k]);
    case None =>
      assert r == groups + [Group(c, [item])];
      assert GroupOk(r[|groups|]);
  }

  /** The grouping loop of `renderItems` over all items, in order. */
  function GroupByCategory(items: seq<SelectorItem>): (r: seq<Group>)
    ensures WellFormed(r)
    ensures |r| <= |items|
  {
    if items == [] then []
    else
      var g0 := GroupByCategory(items[..|items| - 1]);
      AddItemKeepsWellFormed(g0, items[|items| - 1]);
      AddItem(g0, items[|items| - 1])
  }

  /** The categories of the items in order of first appearance, each once. */
  function Categories(items: seq<SelectorItem>): (r: seq<string>)
    ensures NoDup(r)
    ensures forall c :: c in r <==> exists i :: 0 <= i < |items| && CategoryOf(items[i]) == c
  {
    if items == [] then []
    else
      var init := items[..|items| - 1];
      var rest := Categories(init);
      var c := CategoryOf(items[|items| - 1]);
      assert forall i :: 0 <= i < |init| ==> init[i] == items[i];
      if c in rest then rest
      else
        AppendFreshNoDup(rest, c);
        rest + [c]
  }

  /** The items of one category, in their original order. */
  function InCategory(items: seq<SelectorItem>, category: string): (r: seq<SelectorItem>)
    ensures forall k :: 0 <= k < |r| ==> CategoryOf(r[k]) == category
    ensures forall i :: 0 <= i < |items| && CategoryOf(items[i]) == category ==> items[i] in r
    ensures (forall i :: 0 <= i < |items| ==> CategoryOf(items[i]) != category) ==> r == []
  {
    if items == [] then []
    else
      var init := items[..|items| - 1];
      var x := items[|items| - 1];
      assert forall i :: 0 <= i < |init| ==> init[i] == items[i];
      InCategory(init, category) + (if CategoryOf(x) == category then [x] else [])
  }

  /** The grouping loop builds one group per category, in order of first appearance,
      each holding exactly the items of that category in their original order. */
  lemma {:induction false} GroupingIsByCategory(items: seq<SelectorItem>)
    ensures var g := GroupByCategory(items);
      var cs := Categories(items);
      && |g| == |cs|
      && forall k :: 0 <= k < |g| ==> g[k] == Group(cs[k], InCategory(items, cs[k]))
  {
    if items != [] {
      var init := items[..|items| - 1];
      GroupingIsByCategory(init);
      if CategoryOf(items[|items| - 1]) in Categories(init) {
        GroupingSeenCategory(items);
      } else {
        GroupingNewCategory(items);
        SplitLast(items);
        AppendedGroupMatches(init, items[|items| - 1], GroupByCategory(init), Categories(init));
      }
    }
  }

  /** The step of the grouping loop for an item whose category already has a group. */
  lemma GroupingSeenCategory(items: seq<SelectorItem>)
    requires items != []
    requires CategoryOf(items[|items| - 1]) in Categories(items[..|items| - 1])
    requires var init := items[..|items| - 1];
      var g0 := GroupByCategory(init);
      var cs0 := Categories(init);
      && |g0| == |cs0|
      && forall k :: 0 <= k < |g0| ==> g0[k] == Group(cs0[k], InCategory(init, cs0[k]))
    ensures var g := GroupByCategory(items);
      var cs := Categories(items);
      && |g| == |cs|
      && forall k :: 0 <= k < |g| ==> g[k] == Group(cs[k], InCategory(items, cs[k]))
  {
    var init := items[..|items| - 1];
    var x := items[|items| - 1];
    var c := CategoryOf(x);
    var g0 := GroupByCategory(init);
    var cs0 := Categories(init);
    var g := GroupByCategory(items);
    var cs := Categories(items);
    var k := FindGroup(g0, c).value;
    assert g == g0[k := Group(c, g0[k].items + [x])];
    assert cs == cs0;
    forall j | 0 <= j < |g| ensures g[j] == Group(cs[j], InCategory(items, cs[j])) {
      assert InCategory(items, cs0[j]) == InCategory(init, cs0[j]) + (if c == cs0[j] then [x] else []);
      assert cs0[k] == c;
      if j != k {
        assert cs0[j] != c;
      }
    }
  }

  /** The step of the grouping loop for an item whose category is new: a group is appended. */
  lemma GroupingNewCategory(items: seq<SelectorItem>)
    requires items != []
    requires CategoryOf(items[|items| - 1]) !in Categories(items[..|items| - 1])
    requires var init := items[..|items| - 1];
      |GroupByCategory(init)| == |Categories(init)| &&
      forall k :: 0 <= k < |GroupByCategory(init)| ==> GroupByCategory(init)[k].category == Categories(init)[k]
    ensures var init := items[..|items| - 1];
      var x := items[|items| - 1];
      && GroupByCategory(items) == GroupByCategory(init) + [Group(CategoryOf(x), [x])]
      && Categories(items) == Categories(init) + [CategoryOf(x)]
      && InCategory(init, CategoryOf(x)) == []
  {
    var init := items[..|items| - 1];
    var x := items[|items| - 1];
    var c := CategoryOf(x);
    var g0 := GroupByCategory(init);
    var cs0 := Categories(init);
    assert FindGroup(g0, c).None?;
    assert InCategory(init, c) == [] by {
      assert forall i :: 0 <= i < |init| ==> CategoryOf(init[i]) in cs0;
    }
  }

  /** The groups after appending a new category's group still match the categories. */
  lemma AppendedGroupMatches(init: seq<SelectorItem>, x: SelectorItem, g0: seq<Group>, cs0: seq<string>)
    requires |g0| == |cs0| && CategoryOf(x) !in cs0 && InCategory(init, CategoryOf(x)) == []
    requires forall k :: 0 <= k < |g0| ==> g0[k] == Group(cs0[k], InCategory(init, cs0[k]))
    ensures var g := g0 + [Group(CategoryOf(x), [x])];
      var cs := cs0 + [CategoryOf(x)];
      forall j :: 0 <= j < |g| ==> g[j] == Group(cs[j], InCategory(init + [x], cs[j]))
  {
    var c := CategoryOf(x);
    var g := g0 + [Group(c, [x])];
    var cs := cs0 + [c];
    assert (init + [x])[..|init|] == init;
    forall j | 0 <= j < |g| ensures g[j] == Group(cs[j], InCategory(init + [x], cs[j])) {
      assert InCategory(init + [x], cs[j]) == InCategory(init, cs[j]) + (if c == cs[j] then [x] else []);
      if j < |g0| {
        assert cs[j] == cs0[j] && cs0[j] != c;
      }
    }
  }

  /** Every item appears in exactly one group: the one named by its category. */
  lemma EachItemInOneGroup(items: seq<SelectorItem>, i: nat)
    requires i < |items|
    ensures var cs := Categories(items);
      && CategoryOf(items[i]) in cs
      && forall k, l :: 0 <= k < l < |cs| ==> !(cs[k] == CategoryOf(items[i]) && cs[l] == CategoryOf(items[i]))
    ensures var g := GroupByCategory(items);
      forall k :: 0 <= k < |g| ==> (items[i] in g[k].items <==> g[k].category == CategoryOf(items[i]))
    ensures var g := GroupByCategory(items);
      var k := FindGroup(g, CategoryOf(items[i]));
      k.Some? && items[i] in g[k.value].items
  {
    GroupingIsByCategory(items);
    MembershipFollowsCategory(items, GroupByCategory(items), Categories(items), i);
  }

  /** Groups that hold exactly the items of their categories hold each item in its own
      category's group and nowhere else. */
  lemma MembershipFollowsCategory(items: seq<SelectorItem>, g: seq<Group>, cs: seq<string>, i: nat)
    requires i < |items| && |g| == |cs| && CategoryOf(items[i]) in cs
    requires forall k :: 0 <= k < |g| ==> g[k] == Group(cs[k], InCategory(items, cs[k]))
    ensures forall k :: 0 <= k < |g| ==> (items[i] in g[k].items <==> g[k].category == CategoryOf(items[i]))
    ensures var k := FindGroup(g, CategoryOf(items[i]));
      k.Some? && items[i] in g[k.value].items
  {
    forall k | 0 <= k < |g| ensures items[i] in g[k].items <==> g[k].category == CategoryOf(items[i]) {
      if items[i] in g[k].items {
        var j :| 0 <= j < |g[k].items| && g[k].items[j] == items[i];
      }
    }
    var m :| 0 <= m < |cs| && cs[m] == CategoryOf(items[i]);
    assert g[m].category == CategoryOf(items[i]);
  }
}
