/**
  `StatusToBrushConverter`: the colour of an item's status badge.
 */
module StatusToBrushConverter {
  import opened Base
  import opened Media
  import StatusData

  /** The `switch` on the status text: the colour of a matching `case`, or `None` for `default`. */
  function CaseColor(status: Option<string>): (c: Option<Color>)
  {
    match status
    case Some("In development") => Some(FromRgb(0xFF, 0xA5, 0x00))  // orange
    case Some("In testing") => Some(FromRgb(0xFF, 0xD7, 0x00))      // gold
    case Some("Deployed") => Some(FromRgb(0x32, 0xCD, 0x32))        // lime green
    case Some("Archived") => Some(FromRgb(0x80, 0x80, 0x80))        // grey
    case _ => None
  }

  /** The colour chosen for a bound value; anything that is not a listed status falls back to `Colors.Gray`. */
  function StatusColor(value: Value): (c: Color)
    ensures c.a == 0xFF
    ensures c != Gray ==> value.Str? && value.text in StatusData.Options[..3]
  {
    assert StatusData.Options[..3] == ["In development", "In testing", "Deployed"];
    match CaseColor(AsString(value))
    case Some(c) => c
    case None => Gray
  }

  /** `Convert(value, targetType, parameter, culture)`: a frozen solid brush; only the value matters. */
  function Convert<T, P>(value: Value, targetType: T, parameter: P): (r: Brush)
    ensures r.frozen
    ensures r.color == StatusColor(value)
  {
    SolidColorBrush(StatusColor(value), true)
  }

  /** A status has its own `case` exactly when it is one of the four options. */
  lemma CasesAreTheOptions(status: Option<string>)
    ensures CaseColor(status).Some? <==> status.Some? && status.value in StatusData.Options
  {
  }

  /** The badge colours of the four options, in the order the options are listed. */
  lemma OptionColours()
    ensures var o := StatusData.Options;
      && StatusColor(Str(o[0])) == FromRgb(0xFF, 0xA5, 0x00)
      && StatusColor(Str(o[1])) == FromRgb(0xFF, 0xD7, 0x00)
      && StatusColor(Str(o[2])) == FromRgb(0x32, 0xCD, 0x32)
      && StatusColor(Str(o[3])) == FromRgb(0x80, 0x80, 0x80)
  {
  }

  /** The three live statuses get three different colours, none of them the fallback grey. */
  lemma LiveStatusesDistinct()
    ensures var o := StatusData.Options;
      forall i, j :: 0 <= i < j < 3 ==> StatusColor(Str(o[i])) != StatusColor(Str(o[j]))
    ensures forall i :: 0 <= i < 3 ==> StatusColor(Str(StatusData.Options[i])) != Gray
  {
  }

  /** "Archived" has its own case, but its grey is `Colors.Gray`: it looks like an unknown status. */
  lemma ArchivedLooksUnknown(other: string)
    requires other !in StatusData.Options
    ensures StatusColor(Str("Archived")) == StatusColor(Null) == StatusColor(Str(other))
    ensures StatusColor(OtherObject) == Gray
  {
  }

  /** `ConvertBack` is not implemented: it always throws. */
  function ConvertBack<T, P>(value: Value, targetType: T, parameter: P): (r: Result<Value>)
    ensures r == Exception("NotImplementedException")
  {
    Exception("NotImplementedException")
  }
}
