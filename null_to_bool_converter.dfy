/**
  `NullToBoolConverter`: shows a control only when a bound value has content,
  optionally inverted, as a bool or as a `Visibility`.
 */
module NullToBoolConverter {
  import opened Base

  datatype Visibility = Visible | Hidden | Collapsed

  /** The binding's target type: `Visibility`, or anything else. */
  datatype TargetType = VisibilityType | OtherType

  /** What `Convert` returns: a boxed bool, or a `Visibility`. */
  datatype Converted = BoolResult(b: bool) | VisibilityResult(visibility: Visibility)

  /** Not null, and not a string that is empty or all white space. */
  predicate HasContent(value: Value) {
    !(value.Null? || (value.Str? && IsBlank(value.text)))
  }

  /** The converter parameter is the string "inverse", in any letter case. */
  predicate IsInverse(parameter: Value) {
    parameter.Str? && EqualsIgnoreCase(parameter.text, "inverse")
  }

  /** The result says "show": `true`, or `Visible`. */
  predicate IsShown(r: Converted) {
    r == BoolResult(true) || r == VisibilityResult(Visible)
  }

  /** `Convert(value, targetType, parameter, culture)`. */
  function Convert(value: Value, targetType: TargetType, parameter: Value): (r: Converted)
    ensures r.VisibilityResult? <==> targetType == VisibilityType
    ensures r.VisibilityResult? ==> r.visibility != Hidden
    ensures IsShown(r) <==> (HasContent(value) != IsInverse(parameter))
  {
    var isNullOrEmpty := value.Null? || (value.Str? && IsBlank(value.text));
    var inverse := parameter.Str? && EqualsIgnoreCase(parameter.text, "inverse");
    var result := !isNullOrEmpty;
    var final := if inverse then !result else result;
    if targetType == VisibilityType then
      VisibilityResult(if final then Visible else Collapsed)
    else
      BoolResult(final)
  }

  /** Null, empty and white-space-only strings give false; any other value gives true. */
  lemma ContentDecides(value: Value)
    ensures Convert(value, OtherType, Null) == BoolResult(HasContent(value))
    ensures Convert(Null, OtherType, Null) == BoolResult(false)
    ensures Convert(Str(""), OtherType, Null) == BoolResult(false)
    ensures Convert(Str(" \t"), OtherType, Null) == BoolResult(false)
    ensures Convert(OtherObject, OtherType, Null) == BoolResult(true)
  {
  }

  /** "inverse" in any letter case negates the result; any other parameter changes nothing. */
  lemma InverseNegates(value: Value, targetType: TargetType, parameter: Value)
    ensures IsInverse(parameter) ==>
      IsShown(Convert(value, targetType, parameter)) == !IsShown(Convert(value, targetType, Null))
    ensures !IsInverse(parameter) ==> Convert(value, targetType, parameter) == Convert(value, targetType, Null)
    ensures IsInverse(Str("Inverse")) && IsInverse(Str("INVERSE")) && !IsInverse(Str("inverted"))
  {
  }

  /** `ConvertBack` is not implemented: it always throws. */
  function ConvertBack(value: Value, targetType: TargetType, parameter: Value): (r: Result<Value>)
    ensures r == Exception("NotImplementedException")
  {
    Exception("NotImplementedException")
  }
}
