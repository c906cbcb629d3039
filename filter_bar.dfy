/**
 * The selection logic of one row of filter buttons (`FilterBar`): which
 * button is pressed, which one holds the keyboard tab stop, which key
 * presses select an option, and how far the row may be dragged sideways.
 * Rendering, styling and the motion library's drag physics are not modelled.
 */
module FilterBar {
  import opened Optional

  /**
   * The text a button shows: a fixed caption (the synthetic "all" options),
   * or a facet value with its occurrence count, shown as `value (count)`.
   */
  datatype Label = Caption(text: string) | Counted(name: string, count: nat)

  /** `{ value, label }`: what selecting the button selects, and its label
   * (`display`, since `label` is a Dafny keyword). */
  datatype FilterOption = FilterOption(value: string, display: Label)

  function Values(options: seq<FilterOption>): seq<string>
  {
    seq(|options|, i requires 0 <= i < |options| => options[i].value)
  }

  ghost predicate DistinctValues(options: seq<FilterOption>)
  {
    forall i, j :: 0 <= i < j < |options| ==> options[i].value != options[j].value
  }

  /** `option.value === value`: the button is shown pressed (`aria-pressed`). */
  predicate IsActive(option: FilterOption, value: string)
  {
    option.value == value
  }

  /** `options.findIndex(opt => opt.value === value)`: -1 when nothing matches. */
  function FindIndex(options: seq<FilterOption>, value: string): (r: int)
    ensures -1 <= r < |options|
    ensures r >= 0 ==> IsActive(options[r], value)
    ensures r >= 0 ==> forall j :: 0 <= j < r ==> !IsActive(options[j], value)
    ensures r == -1 ==> forall j :: 0 <= j < |options| ==> !IsActive(options[j], value)
  {
    if options == [] then -1
    else if IsActive(options[0], value) then 0
    else
      var r := FindIndex(options[1..], value);
      if r == -1 then -1 else r + 1
  }

  /**
   * `tabIndexLookup`: the first pressed button holds the tab stop; when no
   * button is pressed (a stale value), the first button does.
   */
  function TabIndexLookup(options: seq<FilterOption>, value: string): (r: nat)
    ensures (exists i :: 0 <= i < |options| && IsActive(options[i], value)) ==>
              r < |options| && IsActive(options[r], value)
              && forall j :: 0 <= j < r ==> !IsActive(options[j], value)
    ensures (forall i :: 0 <= i < |options| ==> !IsActive(options[i], value)) ==> r == 0
  {
    var current := FindIndex(options, value);
    if current == -1 then 0 else current
  }

  /** The `tabIndex` of the button at `index`: 0 for the tab stop, else -1. */
  function TabIndex(options: seq<FilterOption>, value: string, index: nat): (t: int)
    ensures t == 0 || t == -1
    ensures (index < |options| && IsActive(options[index], value)
             && forall j :: 0 <= j < index ==> !IsActive(options[j], value)) ==> t == 0
    ensures (forall j :: 0 <= j < |options| ==> !IsActive(options[j], value)) ==> (t == 0 <==> index == 0)
  {
    if index == TabIndexLookup(options, value) then 0 else -1
  }

  /** A non-empty row has exactly one tab stop, and it is one of its buttons. */
  lemma SingleTabStop(options: seq<FilterOption>, value: string)
    requires |options| > 0
    ensures TabIndexLookup(options, value) < |options|
    ensures (set i | 0 <= i < |options| && TabIndex(options, value, i) == 0) == {TabIndexLookup(options, value)}
  {
  }

  /**
   * When the option values are distinct, a button is pressed exactly when
   * it is the tab stop and the tab stop's button is pressed.
   */
  lemma PressedButtonHoldsTabStop(options: seq<FilterOption>, value: string, i: nat)
    requires DistinctValues(options) && i < |options|
    ensures TabIndexLookup(options, value) < |options|
    ensures IsActive(options[i], value) <==>
              i == TabIndexLookup(options, value) && IsActive(options[TabIndexLookup(options, value)], value)
  {
  }

  /**
   * Selecting a button by click or key makes exactly that button pressed and
   * moves the tab stop to it, when the option values are distinct.
   */
  lemma SelectedButtonBecomesTabStop(options: seq<FilterOption>, i: nat)
    requires DistinctValues(options) && i < |options|
    ensures TabIndexLookup(options, Click(options[i])) == i
    ensures forall j :: 0 <= j < |options| ==> (IsActive(options[j], Click(options[i])) <==> j == i)
  {
  }

  /** `handleKey`: Enter and Space select the option; other keys do nothing. */
  function KeyActivation(key: string, option: FilterOption): (r: Option<string>)
    ensures r.Some? <==> key == "Enter" || key == " "
    ensures r.Some? ==> r.value == Click(option)
  {
    if key == "Enter" || key == " " then Some(option.value) else None
  }

  /** `onClick`: a click always selects the option. */
  function Click(option: FilterOption): (v: string)
    ensures IsActive(option, v)
  {
    option.value
  }

  /** `{ left, right }` bounds, in pixels, on the row's horizontal offset. */
  datatype Constraints = Constraints(left: int, right: int)

  /**
   * The drag bounds `updateConstraints` chooses for a track `scrollWidth`
   * pixels wide inside a container `clientWidth` pixels wide: the row can be
   * dragged left exactly far enough to bring its right edge into view, and
   * never right.
   */
  function ConstraintsFor(scrollWidth: int, clientWidth: int): (c: Constraints)
    ensures c.left <= 0 == c.right
    ensures clientWidth - c.left >= scrollWidth
    ensures c.left == 0 || clientWidth - c.left == scrollWidth
  {
    var overflow := scrollWidth - clientWidth;
    if overflow > 0 then Constraints(-overflow, 0) else Constraints(0, 0)
  }

  /** The draggable track: its offset `x` and the drag bounds state. */
  class DragTrack {
    var x: real
    var constraints: Constraints

    ghost predicate Valid()
      reads this
    {
      constraints.left <= 0 == constraints.right
    }

    /** `useMotionValue(0)` and `useState({ left: 0, right: 0 })`. */
    constructor ()
      ensures Valid()
      ensures x == 0.0 && constraints == Constraints(0, 0)
    {
      x := 0.0;
      constraints := Constraints(0, 0);
    }

    /**
     * `updateConstraints`: sets the bounds for the current widths; when the
     * track fits, it also snaps the track back to offset 0.
     */
    method UpdateConstraints(scrollWidth: int, clientWidth: int)
      modifies this
      ensures Valid()
      ensures constraints == ConstraintsFor(scrollWidth, clientWidth)
      ensures x == if scrollWidth - clientWidth > 0 then old(x) else 0.0
    {
      var overflow := scrollWidth - clientWidth;
      if overflow > 0 {
        constraints := Constraints(-overflow, 0);
      } else {
        x := 0.0;
        constraints := Constraints(0, 0);
      }
    }
  }
}
