/**
 * The selection logic of the combobox
 * (apps/client/src/components/ui/combobox.tsx): what a click on an option
 * hands to `onValueChange`, which options show a check mark, and the text
 * of the trigger button.
 */
module Combobox {
  import opened Wrappers
  import opened Strings

  /** `SelectOptionValue`: a string, a number or a boolean. */
  datatype OptionValue = Str(s: string) | Num(n: int) | Bool(b: bool)

  /** An option; `text` is its `label`, a word Dafny reserves. */
  datatype SelectOption = SelectOption(text: string, description: Option<string>, value: OptionValue)

  /** The `value` prop: absent, one value, or an array of values. */
  datatype ComboValue = Unset | One(v: OptionValue) | Many(vs: seq<OptionValue>)

  /** The effect of a click: the value passed to `onValueChange`, and whether the popover closes. */
  datatype Selection = Selection(value: ComboValue, closesPopover: bool)

  const LabelSeparator := ", "

  /** The values other than `removed`, in their original order. */
  function Without(values: seq<OptionValue>, removed: OptionValue): (r: seq<OptionValue>)
    ensures multiset(r) == multiset(values)[removed := 0]
    ensures removed !in values ==> r == values
  {
    if values == [] then []
    else
      assert values == [values[0]] + values[1..];
      if values[0] == removed then Without(values[1..], removed)
      else [values[0]] + Without(values[1..], removed)
  }

  /**
   * Filtering a concatenation filters each part and keeps them in order;
   * with the multiset clause on one-element arrays this fixes the order of
   * every result.
   */
  lemma {:induction false} WithoutAppend(a: seq<OptionValue>, b: seq<OptionValue>, removed: OptionValue)
    ensures Without(a + b, removed) == Without(a, removed) + Without(b, removed)
  {
    if a == [] {
      assert a + b == b;
    } else {
      assert (a + b)[0] == a[0];
      assert (a + b)[1..] == a[1..] + b;
      WithoutAppend(a[1..], b, removed);
    }
  }

  /**
   * The click handler for option `selected`. In multiple mode an array value loses every
   * copy of a selected member or gains the new one at its end, and any other
   * value becomes the array of just the selection; in single mode the
   * selection replaces the value, or clears it when it was already chosen,
   * and the popover closes.
   */
  function HandleSelect(multiple: bool, value: ComboValue, selected: OptionValue): (r: Selection)
    ensures multiple && value.Many? && selected in value.vs ==>
      r.value == Many(Without(value.vs, selected)) && multiset(r.value.vs) == multiset(value.vs)[selected := 0]
    ensures multiple && value.Many? && selected !in value.vs ==> r.value == Many(value.vs + [selected])
    ensures multiple && !value.Many? ==> r.value == Many([selected])
    ensures !multiple ==> r.value == (if value == One(selected) then Unset else One(selected))
    ensures r.closesPopover <==> !multiple
  {
    if multiple then
      match value
      case Many(vs) =>
        if selected in vs then Selection(Many(Without(vs, selected)), false)
        else Selection(Many(vs + [selected]), false)
      case _ => Selection(Many([selected]), false)
    else
      Selection(if value == One(selected) then Unset else One(selected), true)
  }

  /** Whether option value `v` shows a check mark: membership of an array value in multiple mode, equality in single mode. */
  predicate IsSelected(multiple: bool, value: ComboValue, v: OptionValue)
    ensures IsSelected(multiple, value, v) && multiple ==>
      value.Many? && exists i :: 0 <= i < |value.vs| && value.vs[i] == v
    ensures multiple && value.Many? && (exists i :: 0 <= i < |value.vs| && value.vs[i] == v) ==>
      IsSelected(multiple, value, v)
    ensures !multiple ==> (IsSelected(multiple, value, v) <==> value.One? && value.v == v)
  {
    if multiple then value.Many? && v in value.vs else value == One(v)
  }

  /** Every click flips the check mark of the option clicked. */
  lemma SelectFlipsSelection(multiple: bool, value: ComboValue, selected: OptionValue)
    ensures IsSelected(multiple, HandleSelect(multiple, value, selected).value, selected)
        <==> !IsSelected(multiple, value, selected)
  {
    if multiple && value.Many? && selected in value.vs {
      var r := HandleSelect(multiple, value, selected).value;
      assert multiset(r.vs)[selected] == 0;
    }
  }

  /** In multiple mode with an array value, a click leaves every other option's check mark alone. */
  lemma SelectKeepsOthers(value: ComboValue, selected: OptionValue, other: OptionValue)
    requires value.Many? && other != selected
    ensures IsSelected(true, HandleSelect(true, value, selected).value, other)
        <==> IsSelected(true, value, other)
  {
    var r := HandleSelect(true, value, selected).value;
    if selected in value.vs {
      assert multiset(r.vs)[other] == multiset(value.vs)[other];
      assert other in r.vs <==> other in multiset(r.vs);
    }
  }

  /** Where the search of the options for `v` stops: the first option carrying `v`, or the end. */
  function FindIndex(options: seq<SelectOption>, v: OptionValue): (i: nat)
    ensures i <= |options|
    ensures i < |options| ==> options[i].value == v
    ensures forall j :: 0 <= j < i ==> options[j].value != v
  {
    if options == [] then 0
    else if options[0].value == v then 0
    else 1 + FindIndex(options[1..], v)
  }

  /** The first option carrying `v`, if any. */
  function FindOption(options: seq<SelectOption>, v: OptionValue): (r: Option<SelectOption>)
    ensures r.None? <==> forall i :: 0 <= i < |options| ==> options[i].value != v
    ensures r.Some? ==> r.value.value == v && r.value in options
    ensures r.Some? ==> exists i :: 0 <= i < |options| && options[i] == r.value &&
                                   forall j :: 0 <= j < i ==> options[j].value != v
  {
    var i := FindIndex(options, v);
    if i < |options| then Some(options[i]) else None
  }

  /** The label of the first option carrying `v`, or nothing when no option carries it. */
  function LabelOf(options: seq<SelectOption>, v: OptionValue): (r: Option<string>)
    ensures r.None? <==> forall i :: 0 <= i < |options| ==> options[i].value != v
    ensures r.Some? ==> exists i :: 0 <= i < |options| && options[i].value == v && options[i].text == r.value &&
                                   forall j :: 0 <= j < i ==> options[j].value != v
  {
    match FindOption(options, v)
    case Some(o) => Some(o.text)
    case None => None
  }

  /**
   * The labels found for the values, in order, without the missing or empty
   * ones.
   */
  function MatchedLabels(options: seq<SelectOption>, values: seq<OptionValue>): (labels: seq<string>)
    ensures |labels| <= |values|
    ensures |values| == 1 ==>
      labels == if LabelOf(options, values[0]).Some? && LabelOf(options, values[0]).value != ""
                then [LabelOf(options, values[0]).value] else []
    ensures forall k :: 0 <= k < |labels| ==> labels[k] != ""
    ensures (forall i :: 0 <= i < |values| ==> LabelOf(options, values[i]).Some? && LabelOf(options, values[i]).value != "") ==>
      |labels| == |values| && forall i :: 0 <= i < |values| ==> labels[i] == LabelOf(options, values[i]).value
  {
    if values == [] then []
    else
      var found := LabelOf(options, values[0]);
      var rest := MatchedLabels(options, values[1..]);
      assert forall i :: 1 <= i < |values| ==> values[1..][i - 1] == values[i];
      assert |values| == 1 ==> rest == [];
      if found.Some? && found.value != "" then [found.value] + rest else rest
  }

  /** The labels of a concatenation are the labels of each part, in order. */
  lemma {:induction false} MatchedLabelsAppend(options: seq<SelectOption>, a: seq<OptionValue>, b: seq<OptionValue>)
    ensures MatchedLabels(options, a + b) == MatchedLabels(options, a) + MatchedLabels(options, b)
  {
    if a == [] {
      assert a + b == b;
    } else {
      assert (a + b)[0] == a[0];
      assert (a + b)[1..] == a[1..] + b;
      MatchedLabelsAppend(options, a[1..], b);
    }
  }

  predicate AllStrings(values: seq<OptionValue>)
  {
    forall i :: 0 <= i < |values| ==> values[i].Str?
  }

  /**
   * The text of the trigger button. In multiple mode an array of strings shows the
   * labels of its options joined by ", "; a single string shows its option's
   * label; an empty or missing text falls back to the given placeholder.
   */
  function Placeholder(multiple: bool, options: seq<SelectOption>, value: ComboValue, fallback: Option<string>): (r: Option<string>)
    ensures multiple && value.Many? && AllStrings(value.vs) && MatchedLabels(options, value.vs) != [] ==>
      r == Some(Join(MatchedLabels(options, value.vs), LabelSeparator))
    ensures value.One? && value.v.Str? && LabelOf(options, value.v).Some? && LabelOf(options, value.v).value != "" ==>
      r == LabelOf(options, value.v)
    ensures multiple && value.Many? && AllStrings(value.vs) && MatchedLabels(options, value.vs) == [] ==>
      r == fallback
    ensures value.One? && value.v.Str? && (LabelOf(options, value.v).None? || LabelOf(options, value.v).value == "") ==>
      r == fallback
    ensures value.Unset? || (value.One? && !value.v.Str?) || (value.Many? && !(multiple && AllStrings(value.vs))) ==>
      r == fallback
    ensures r.Some? && r != fallback ==> r.value != ""
  {
    var chosen: Option<string> :=
      if multiple && value.Many? && AllStrings(value.vs) then Some(Join(MatchedLabels(options, value.vs), LabelSeparator))
      else if value.One? && value.v.Str? then LabelOf(options, value.v)
      else None;
    if chosen.Some? && chosen.value != "" then chosen else fallback
  }
}
