/** The extra-items checkboxes of the order form: ticking a box appends the
    item, unticking removes it, and a box shows ticked when the item is in
    the list. */
module SubItemsField {
  import opened Seqs

  /** The box for `item` shows ticked (`subItems.includes(item)`). */
  predicate Checked(subItems: seq<string>, item: string) {
    item in subItems
  }

  /** `handleSubItemChange`: the new list of extra items. */
  function Toggle(subItems: seq<string>, item: string, checked: bool): (r: seq<string>)
    ensures checked ==> r == subItems + [item]
    ensures !checked ==> item !in r && forall y :: y != item ==> multiset(r)[y] == multiset(subItems)[y]
  {
    if checked then subItems + [item] else RemoveAll(subItems, item)
  }

  /** Whatever the list held, the box afterwards shows what was clicked. */
  lemma ToggleShows(subItems: seq<string>, item: string, checked: bool)
    ensures Checked(Toggle(subItems, item, checked), item) == checked
  {
  }

  /** Ticking and unticking another item leaves this box as it was. */
  lemma ToggleLeavesOthers(subItems: seq<string>, item: string, other: string, checked: bool)
    requires other != item
    ensures Checked(Toggle(subItems, item, checked), other) == Checked(subItems, other)
  {
    var r := Toggle(subItems, item, checked);
    assert other in r <==> multiset(r)[other] > 0;
    assert other in subItems <==> multiset(subItems)[other] > 0;
  }

  /** Unticking keeps the other items in their order. */
  lemma UntickKeepsOrder(a: seq<string>, b: seq<string>, item: string)
    ensures Toggle(a + b, item, false) == Toggle(a, item, false) + Toggle(b, item, false)
  {
    RemoveAllAppend(a, b, item);
  }

  /** Ticking an item that was not ticked and then unticking it gives back
      the list it started from. */
  lemma TickThenUntick(subItems: seq<string>, item: string)
    requires item !in subItems
    ensures Toggle(Toggle(subItems, item, true), item, false) == subItems
  {
    UntickKeepsOrder(subItems, [item], item);
    assert [item][..0] == [];
  }
}
