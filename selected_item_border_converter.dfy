/**
  `SelectedItemBorderConverter`: the border of a tile, thicker and blue when
  the tile's item is the selected one.
 */
module SelectedItemBorderConverter {
  import opened Media
  import Base

  /** A reference of static type `object`. */
  datatype Ref = Null | Ref(address: nat)

  /**
    The `Equals` override of the object at an address, applied to another
    reference: the converter calls `current.Equals(selected)`.
   */
  type EqualsMethod = (nat, Ref) -> bool

  /** `object.Equals` when not overridden (as for `SoftwareItem`): reference identity. */
  function ReferenceEquality(): EqualsMethod {
    (a: nat, other: Ref) => other == Ref(a)
  }

  /** The binding's target type. */
  datatype TargetType = BrushType | SolidColorBrushType | ThicknessType | OtherType

  /** What `Convert` returns: a brush, or a uniform `Thickness`. */
  datatype Appearance = BrushValue(brush: Brush) | ThicknessValue(uniform: int)

  /** Dodger blue (#1E90FF), the selection colour. */
  const SelectionBlue: Color := FromRgb(0x1E, 0x90, 0xFF)

  /** The first binding value, or null if there is none. */
  function Current(values: seq<Ref>): Ref {
    if |values| > 0 then values[0] else Null
  }

  /** The second binding value, or null if there is none. */
  function SelectedRef(values: seq<Ref>): Ref {
    if |values| > 1 then values[1] else Null
  }

  /** `ReferenceEquals(current, selected) || (current != null && current.Equals(selected))`. */
  predicate IsSelected(values: seq<Ref>, equals: EqualsMethod) {
    var current, selected := Current(values), SelectedRef(values);
    current == selected || (current.Ref? && equals(current.address, selected))
  }

  /** The highlighted look: a 2-wide border or the blue brush. */
  predicate IsHighlighted(r: Appearance) {
    r == ThicknessValue(2) || (r.BrushValue? && r.brush.color == SelectionBlue)
  }

  /** `Convert(values, targetType, parameter, culture)`. */
  function Convert(values: seq<Ref>, targetType: TargetType, equals: EqualsMethod): (r: Appearance)
    ensures r.ThicknessValue? <==> targetType == ThicknessType
    ensures IsHighlighted(r) <==> IsSelected(values, equals)
    ensures !IsHighlighted(r) ==> r == ThicknessValue(1) || r == BrushValue(SolidColorBrush(Transparent, false))
  {
    var isSelected := IsSelected(values, equals);
    if targetType == BrushType || targetType == SolidColorBrushType then
      BrushValue(SolidColorBrush(if isSelected then SelectionBlue else Transparent, false))
    else if targetType == ThicknessType then
      ThicknessValue(if isSelected then 2 else 1)
    else
      BrushValue(SolidColorBrush(if isSelected then SelectionBlue else Transparent, false))
  }

  /** Missing values count as null, so with both absent or null the tile counts as selected. */
  lemma MissingValuesAreNull(equals: EqualsMethod)
    ensures IsSelected([], equals) && IsSelected([Null], equals) && IsSelected([Null, Null], equals)
  {
  }

  /** A null current value never matches a non-null selection. */
  lemma NullCurrentNotSelected(values: seq<Ref>, equals: EqualsMethod)
    requires |values| >= 2 && values[0] == Null && values[1].Ref?
    ensures !IsSelected(values, equals)
  {
  }

  /** With `Equals` left as reference identity, a tile is selected exactly when both values are the same reference. */
  lemma ReferenceSelection(values: seq<Ref>)
    ensures IsSelected(values, ReferenceEquality()) <==> Current(values) == SelectedRef(values)
  {
  }

  /** The brush targets and the fallback give the same brush. */
  lemma BrushBranchesAgree(values: seq<Ref>, equals: EqualsMethod)
    ensures Convert(values, BrushType, equals) == Convert(values, SolidColorBrushType, equals)
    ensures Convert(values, BrushType, equals) == Convert(values, OtherType, equals)
  {
  }

  /** `ConvertBack` is not implemented: it always throws, whatever it is given. */
  function ConvertBack(value: Appearance, targetTypes: seq<TargetType>): (r: Base.Result<seq<Ref>>)
    ensures r == Base.Exception("NotImplementedException")
  {
    Base.Exception("NotImplementedException")
  }
}
