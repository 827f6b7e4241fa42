/** The menu editor of the browser-storage version: two lists of names
    (meals and extra items) and the text typed into each "add" box. */
module MenuManager {
  import opened Seqs
  import opened Text

  /** The meals offered before anything is stored. */
  const DefaultMeals: seq<string> := [
    "Soup of the Day", "Ham & Cheese Panini", "Roast Dinner",
    "Fish & Chips", "Jacket Potato", "Chicken Salad"]

  /** The extra items offered before anything is stored. */
  const DefaultSubItems: seq<string> := [
    "Buttered Bread", "Side Salad", "Chips",
    "Coleslaw", "Garlic Bread", "Extra Vegetables"]

  /** What pressing "add" does: refuse a blank name, refuse a name already
      listed (compared exactly, after trimming), or give the longer list. */
  datatype AddOutcome = MissingName | AlreadyListed | Added(list: seq<string>)

  function AddName(list: seq<string>, input: string): (r: AddOutcome)
    ensures r == MissingName <==> forall k :: 0 <= k < |input| ==> IsSpace(input[k])
    ensures r == AlreadyListed <==> Trim(input) != [] && Trim(input) in list
    ensures r.Added? ==> r.list == list + [Trim(input)]
  {
    var name := Trim(input);
    if name == "" then MissingName
    else if name in list then AlreadyListed
    else Added(list + [name])
  }

  /** A list without repeats keeps having none, and the name it gains has no
      white space at either end. */
  lemma AddKeepsNamesDistinct(list: seq<string>, input: string)
    requires NoDuplicates(list)
    requires AddName(list, input).Added?
    ensures NoDuplicates(AddName(list, input).list)
    ensures var name := AddName(list, input).list[|list|];
      name != [] && !IsSpace(name[0]) && !IsSpace(name[|name| - 1]) && Trim(name) == name
  {
    var r := AddName(list, input).list;
    forall i, j | 0 <= i < j < |r| ensures r[i] != r[j] {
      if j == |list| {
        assert r[i] in list;
      }
    }
    TrimIdempotent(input);
  }

  /** Removing a name just added gives back the list from before. */
  lemma AddThenRemove(list: seq<string>, input: string)
    requires AddName(list, input).Added?
    ensures RemoveAll(AddName(list, input).list, Trim(input)) == list
  {
    var name := Trim(input);
    RemoveAllAppend(list, [name], name);
    assert [name][..0] == [];
    assert Filter([name], Unequal(name)) == Filter([], Unequal(name)) + [];
  }

  class MenuManager {
    var mealOptions: seq<string>
    var subItemOptions: seq<string>
    var newMeal: string
    var newSubItem: string

    constructor()
      ensures mealOptions == DefaultMeals && subItemOptions == DefaultSubItems
      ensures newMeal == "" && newSubItem == ""
    {
      mealOptions := DefaultMeals;
      subItemOptions := DefaultSubItems;
      newMeal := "";
      newSubItem := "";
    }

    /** Typing into the "new meal" box. */
    method SetNewMeal(text: string)
      modifies this
      ensures newMeal == text
      ensures mealOptions == old(mealOptions) && subItemOptions == old(subItemOptions)
      ensures newSubItem == old(newSubItem)
    {
      newMeal := text;
    }

    /** Typing into the "new extra item" box. */
    method SetNewSubItem(text: string)
      modifies this
      ensures newSubItem == text
      ensures mealOptions == old(mealOptions) && subItemOptions == old(subItemOptions)
      ensures newMeal == old(newMeal)
    {
      newSubItem := text;
    }

    /** `handleAddMeal`: on success the trimmed name is appended and the box
        cleared; a refused name changes nothing. */
    method HandleAddMeal() returns (outcome: AddOutcome)
      modifies this
      ensures outcome == AddName(old(mealOptions), old(newMeal))
      ensures outcome.Added? ==> mealOptions == outcome.list && newMeal == ""
      ensures !outcome.Added? ==> mealOptions == old(mealOptions) && newMeal == old(newMeal)
      ensures subItemOptions == old(subItemOptions) && newSubItem == old(newSubItem)
    {
      var name := Trim(newMeal);
      if name == "" {
        return MissingName;
      }
      if name in mealOptions {
        return AlreadyListed;
      }
      mealOptions := mealOptions + [name];
      newMeal := "";
      outcome := Added(mealOptions);
    }

    /** `handleRemoveMeal`: every entry equal to `meal` goes. */
    method HandleRemoveMeal(meal: string)
      modifies this
      ensures mealOptions == RemoveAll(old(mealOptions), meal)
      ensures subItemOptions == old(subItemOptions)
      ensures newMeal == old(newMeal) && newSubItem == old(newSubItem)
    {
      mealOptions := RemoveAll(mealOptions, meal);
    }

    /** `handleAddSubItem`: the same rules for extra items. */
    method HandleAddSubItem() returns (outcome: AddOutcome)
      modifies this
      ensures outcome == AddName(old(subItemOptions), old(newSubItem))
      ensures outcome.Added? ==> subItemOptions == outcome.list && newSubItem == ""
      ensures !outcome.Added? ==> subItemOptions == old(subItemOptions) && newSubItem == old(newSubItem)
      ensures mealOptions == old(mealOptions) && newMeal == old(newMeal)
    {
      var name := Trim(newSubItem);
      if name == "" {
        return MissingName;
      }
      if name in subItemOptions {
        return AlreadyListed;
      }
      subItemOptions := subItemOptions + [name];
      newSubItem := "";
      outcome := Added(subItemOptions);
    }

    /** `handleRemoveSubItem`. */
    method HandleRemoveSubItem(subItem: string)
      modifies this
      ensures subItemOptions == RemoveAll(old(subItemOptions), subItem)
      ensures mealOptions == old(mealOptions)
      ensures newMeal == old(newMeal) && newSubItem == old(newSubItem)
    {
      subItemOptions := RemoveAll(subItemOptions, subItem);
    }
  }

  /** The default lists have no repeats. */
  lemma DefaultsDistinct()
    ensures NoDuplicates(DefaultMeals) && NoDuplicates(DefaultSubItems)
  {
  }
}
