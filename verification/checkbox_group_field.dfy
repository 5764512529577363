/** The checkbox group's toggle: clicking an option removes it from the
    stored list when it is there and appends it otherwise, and the new list
    is handed on as a change event of type "checkbox". */
module CheckboxGroupField {
  import opened FormValues

  /** `Array.isArray(value) ? value : []`; a missing value defaults to `[]`. */
  function CurrentValues(value: Value): seq<string>
  {
    match value
    case List(items) => items
    case _ => []
  }

  /** `values.filter(v => v !== option)` */
  function RemoveAll(values: seq<string>, option: string): (r: seq<string>)
    ensures option !in r
    ensures |r| <= |values|
  {
    if values == [] then []
    else if values[0] == option then RemoveAll(values[1..], option)
    else [values[0]] + RemoveAll(values[1..], option)
  }

  /** Removing an option keeps every other value, with its multiplicity and
      in its order, and drops every copy of the option. */
  lemma RemoveAllSpec(values: seq<string>, option: string)
    ensures IsSubsequence(RemoveAll(values, option), values)
    ensures multiset(RemoveAll(values, option)) == multiset(values)[option := 0]
    ensures forall x | x != option :: x in RemoveAll(values, option) <==> x in values
  {
    RemoveAllOrder(values, option);
    RemoveAllCounts(values, option);
    forall x | x != option ensures x in RemoveAll(values, option) <==> x in values {
      assert x in RemoveAll(values, option) <==> multiset(RemoveAll(values, option))[x] > 0;
      assert x in values <==> multiset(values)[x] > 0;
    }
  }

  lemma {:induction false} RemoveAllOrder(values: seq<string>, option: string)
    ensures IsSubsequence(RemoveAll(values, option), values)
    decreases |values|
  {
    if values != [] {
      RemoveAllOrder(values[1..], option);
    }
  }

  lemma {:induction false} RemoveAllCounts(values: seq<string>, option: string)
    ensures multiset(RemoveAll(values, option)) == multiset(values)[option := 0]
    decreases |values|
  {
    if values != [] {
      RemoveAllCounts(values[1..], option);
      assert values == [values[0]] + values[1..];
      assert multiset(values) == multiset{values[0]} + multiset(values[1..]);
    }
  }

  /** Removing an option that is not there changes nothing. */
  lemma {:induction false} RemoveAbsent(values: seq<string>, option: string)
    requires option !in values
    ensures RemoveAll(values, option) == values
    decreases |values|
  {
    if values != [] {
      RemoveAbsent(values[1..], option);
    }
  }

  /** The new list after clicking `option`. */
  function Toggle(values: seq<string>, option: string): seq<string>
  {
    if option in values then RemoveAll(values, option) else values + [option]
  }

  /** Toggling appends an absent option at the end, and removes a present
      one everywhere, keeping the order and the copies of the rest. */
  lemma ToggleSpec(values: seq<string>, option: string)
    ensures option !in values ==> Toggle(values, option) == values + [option]
    ensures option in values ==>
      && option !in Toggle(values, option)
      && IsSubsequence(Toggle(values, option), values)
      && multiset(Toggle(values, option)) == multiset(values)[option := 0]
  {
    RemoveAllSpec(values, option);
  }

  /** Toggling an absent option twice restores the list. */
  lemma ToggleTwice(values: seq<string>, option: string)
    requires option !in values
    ensures Toggle(Toggle(values, option), option) == values
  {
    RemoveAbsent(values, option);
    RemoveAllAppend(values, option);
  }

  lemma {:induction false} RemoveAllAppend(values: seq<string>, option: string)
    ensures RemoveAll(values + [option], option) == RemoveAll(values, option)
    decreases |values|
  {
    if values == [] {
      assert [] + [option] == [option];
    } else {
      assert (values + [option])[1..] == values[1..] + [option];
      RemoveAllAppend(values[1..], option);
    }
  }

  /** `isChecked(option)` */
  predicate IsChecked(value: Value, option: string)
  {
    value.List? && option in value.items
  }

  /** `handleCheckboxChange(option)`: the synthetic change event, whose
      array is the current selection with the clicked option toggled, so
      the option is selected afterwards exactly when it was not before. */
  function HandleCheckboxChange(name: string, value: Value, option: string): (e: ChangeEvent)
    ensures e.name == name && e.kind == "checkbox" && e.value.List?
    ensures e.value == List(Toggle(CurrentValues(value), option))
    ensures option in e.value.items <==> !IsChecked(value, option)
  {
    RemoveAllSpec(CurrentValues(value), option);
    ChangeEvent(name, List(Toggle(CurrentValues(value), option)), "checkbox")
  }

  /** After a click, the clicked option's box flips and every other box
      stays as it was; a value that is not an array reads as no boxes
      ticked. */
  lemma ClickFlipsOne(name: string, value: Value, option: string, other: string)
    requires other != option
    ensures IsChecked(HandleCheckboxChange(name, value, option).value, option) == !IsChecked(value, option)
    ensures IsChecked(HandleCheckboxChange(name, value, option).value, other) == IsChecked(value, other)
  {
    RemoveAllSpec(CurrentValues(value), option);
  }

  /** A stored text or a missing value counts as the empty list, so the
      first click selects just the clicked option. */
  lemma NonArrayClick(name: string, value: Value, option: string)
    requires !value.List?
    ensures HandleCheckboxChange(name, value, option).value == List([option])
  {
  }

  /** Ticking "head" after "fracture", then unticking "fracture". */
  lemma InjuryTypesExample()
    ensures HandleCheckboxChange("injuryTypes", List(["fracture"]), "head")
            == ChangeEvent("injuryTypes", List(["fracture", "head"]), "checkbox")
    ensures HandleCheckboxChange("injuryTypes", List(["fracture", "head"]), "fracture")
            == ChangeEvent("injuryTypes", List(["head"]), "checkbox")
  {
    assert "head" !in ["fracture"];
    assert RemoveAll(["head"], "fracture") == ["head"];
  }
}
