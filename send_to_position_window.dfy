/**
  `SendToPositionWindow`: a dialog that asks for a 1-based list position.
  OK accepts text that, once trimmed, parses as a 32-bit integer of at least 1.
 */
module SendToPositionWindow {
  import opened Base

  const Int32Min: int := -0x8000_0000
  const Int32Max: int := 0x7FFF_FFFF

  /**
    `int.TryParse(s, out v)` with the default integer style and '+'/'-' signs,
    on text with no white space at either end: an optional sign, then one or
    more decimal digits, the value within the 32-bit range. Null fails.
   */
  function TryParseInt32(s: Option<string>): (r: Option<int>)
    ensures r.Some? ==> Int32Min <= r.value <= Int32Max
  {
    match s
    case None => None
    case Some(t) =>
      var k := SignLength(t);
      var digits := t[k..];
      if digits == [] || !IsDigits(digits) then None
      else
        var v: int := if k == 1 && t[0] == '-' then -(DigitsValue(digits) as int) else DigitsValue(digits);
        if Int32Min <= v <= Int32Max then Some(v) else None
  }

  /** The length of an optional leading '+' or '-' sign. */
  function SignLength(t: string): (k: nat)
    ensures k <= 1 && k <= |t|
    ensures k == 1 <==> |t| > 0 && (t[0] == '+' || t[0] == '-')
  {
    if |t| > 0 && (t[0] == '+' || t[0] == '-') then 1 else 0
  }

  /** `int.TryParse(text?.Trim(), out v) && v >= 1`: the position the OK button accepts, if any. */
  function AcceptedPosition(text: Option<string>): (r: Option<int>)
    ensures r.Some? ==> 1 <= r.value <= Int32Max
  {
    var trimmed := match text case None => None case Some(t) => Some(Trim(t));
    match TryParseInt32(trimmed)
    case Some(v) => if v >= 1 then Some(v) else None
    case None => None
  }

  /** Every positive 32-bit value is accepted, whatever white space surrounds it: there is no other upper bound. */
  lemma AcceptsEveryPosition(text: string, n: int)
    requires 1 <= n <= Int32Max
    requires Trim(text) == Decimal(n)
    ensures AcceptedPosition(Some(text)) == Some(n)
  {
    var d := Decimal(n);
    DecimalValue(n);
    assert d[0] != '+' && d[0] != '-';
  }

  /** Zero and negative numbers are refused. */
  lemma RejectsNonPositive(n: int)
    requires n <= 0
    ensures AcceptedPosition(Some(IntToString(n))) == None
  {
    var s := IntToString(n);
    TrimNoOp(s);
    if n < 0 {
      DecimalValue(-n);
      assert s[1..] == Decimal(-n);
    } else {
      DecimalValue(n);
    }
  }

  /** Null text, and text that is empty or all white space, is refused. */
  lemma RejectsMissing(text: Option<string>)
    requires IsNullOrWhiteSpace(text)
    ensures AcceptedPosition(text) == None
  {
    if text.Some? {
      var t := text.value;
      TrimSpec(t);
    }
  }

  /** Text whose trimmed form holds anything but a digit after its optional sign is refused. */
  lemma RejectsNonNumeric(text: string, i: nat)
    requires SignLength(Trim(text)) <= i < |Trim(text)| && !IsDigit(Trim(text)[i])
    ensures AcceptedPosition(Some(text)) == None
  {
    var u := Trim(text);
    var k := SignLength(u);
    assert u[k..][i - k] == u[i];
  }

  /** A digit string without leading zero is worth at least ten to the power of its length less one. */
  lemma {:induction false} LeadingDigitBound(s: string)
    requires IsDigits(s) && |s| >= 1 && s[0] != '0'
    ensures DigitsValue(s) >= Pow10(|s| - 1)
  {
    if |s| > 1 {
      LeadingDigitBound(s[..|s| - 1]);
    } else {
      assert s[..0] == [];
    }
  }

  /** Numbers of eleven digits or more are past the 32-bit range and refused. */
  lemma RejectsOverflow(t: string)
    requires IsDigits(t) && |t| >= 11 && t[0] != '0'
    ensures AcceptedPosition(Some(t)) == None
  {
    TrimNoOp(t);
    LeadingDigitBound(t);
    Pow10Monotonic(10, |t| - 1);
    assert Pow10(10) == 10000000000;
  }

  lemma {:induction false} Pow10Monotonic(a: nat, b: nat)
    requires a <= b
    ensures Pow10(a) <= Pow10(b)
  {
    if a < b {
      Pow10Monotonic(a, b - 1);
    }
  }

  /** A number written with a leading '+', whatever white space surrounds it, is accepted as itself. */
  lemma AcceptsSignedPadded(text: string, n: int)
    requires 1 <= n <= Int32Max
    requires Trim(text) == "+" + Decimal(n)
    ensures AcceptedPosition(Some(text)) == Some(n)
  {
    DecimalValue(n);
    assert Trim(text)[1..] == Decimal(n);
  }

  /**
    Leading zeros are read as part of the number: a position written with
    zeros in front, with or without a '+' and with any white space around,
    is accepted as that position.
   */
  lemma AcceptsLeadingZeros(text: string, sign: string, zeros: string, n: int)
    requires sign == "" || sign == "+"
    requires forall i :: 0 <= i < |zeros| ==> zeros[i] == '0'
    requires 1 <= n <= Int32Max
    requires Trim(text) == sign + zeros + Decimal(n)
    ensures AcceptedPosition(Some(text)) == Some(n)
  {
    ParsesWithZeros(Trim(text), sign, zeros, n);
  }

  /** The parsing half of `AcceptsLeadingZeros`, on the trimmed text. */
  lemma ParsesWithZeros(u: string, sign: string, zeros: string, n: int)
    requires sign == "" || sign == "+"
    requires forall i :: 0 <= i < |zeros| ==> zeros[i] == '0'
    requires 1 <= n <= Int32Max
    requires u == sign + zeros + Decimal(n)
    ensures TryParseInt32(Some(u)) == Some(n)
  {
    var digits := zeros + Decimal(n);
    DecimalValue(n);
    LeadingZerosValue(zeros, Decimal(n));
    if sign == "" {
      assert u == digits && IsDigit(u[0]);
    } else {
      assert u[1..] == digits;
    }
  }

  /**
    Zero is refused because its value is not positive, not because of its
    form: any run of zeros, signed with '+' or '-' or not, parses to 0.
   */
  lemma RejectsSignedZero(text: string, sign: string, zeros: string)
    requires sign == "" || sign == "+" || sign == "-"
    requires |zeros| >= 1 && forall i :: 0 <= i < |zeros| ==> zeros[i] == '0'
    requires Trim(text) == sign + zeros
    ensures TryParseInt32(Some(Trim(text))) == Some(0)
    ensures AcceptedPosition(Some(text)) == None
  {
    var u := Trim(text);
    ZerosValue(zeros);
    if sign == "" {
      assert u[0] == zeros[0];
    } else {
      assert u[1..] == zeros;
    }
  }

  /** The dialog's state: the text box, the chosen position and the dialog result. */
  class SendToPositionWindow {
    var positionText: Option<string>
    var result: Option<int>
    var dialogResult: Option<bool>
    var closed: bool

    /** Opens with the current position in the text box; `max` is accepted but never used. */
    constructor (currentPosition: int, max: int)
      ensures positionText == Some(IntToString(currentPosition))
      ensures result == None && dialogResult == None && !closed
    {
      positionText := Some(IntToString(currentPosition));
      result := None;
      dialogResult := None;
      closed := false;
    }

    /** The user edits the text box. */
    method EditText(text: Option<string>)
      modifies this`positionText
      ensures positionText == text
    {
      positionText := text;
    }

    /**
      `Ok_Click`: an accepted position becomes the result and closes the dialog
      with `true`; anything else shows a warning (`warned`) and changes nothing.
     */
    method OkClick() returns (warned: bool)
      modifies this
      ensures positionText == old(positionText)
      ensures var accepted := AcceptedPosition(old(positionText));
        if accepted.Some? then
          result == accepted && dialogResult == Some(true) && closed && !warned
        else
          result == old(result) && dialogResult == old(dialogResult) && closed == old(closed) && warned
    {
      var v := AcceptedPosition(positionText);
      if v.Some? {
        result := v;
        dialogResult := Some(true);
        closed := true;
        return false;
      }
      warned := true;
    }

    /** `Cancel_Click`: closes with `false` and leaves the result as it was. */
    method CancelClick()
      modifies this
      ensures dialogResult == Some(false) && closed
      ensures result == old(result) && positionText == old(positionText)
    {
      dialogResult := Some(false);
      closed := true;
    }
  }

  /** Pressing OK at once on a dialog opened at a positive position returns that position. */
  method OpenAndConfirm(currentPosition: int, max: int) returns (r: Option<int>)
    requires 1 <= currentPosition <= Int32Max
    ensures r == Some(currentPosition)
  {
    var w := new SendToPositionWindow(currentPosition, max);
    var d := Decimal(currentPosition);
    TrimNoOp(d);
    AcceptsEveryPosition(d, currentPosition);
    var warned := w.OkClick();
    r := w.result;
  }

  /** Opening the dialog and cancelling leaves no result and closes with `false`. */
  method OpenAndCancel(currentPosition: int, max: int) returns (r: Option<int>, dialogResult: Option<bool>)
    ensures r == None && dialogResult == Some(false)
  {
    var w := new SendToPositionWindow(currentPosition, max);
    w.CancelClick();
    r, dialogResult := w.result, w.dialogResult;
  }

  /**
    The user replaces the text with `text` and presses OK: the dialog closes
    with the accepted position, or stays open with no result after a warning.
   */
  method OpenEditAndConfirm(currentPosition: int, max: int, text: Option<string>)
    returns (r: Option<int>, isClosed: bool, warned: bool)
    ensures r == AcceptedPosition(text)
    ensures isClosed <==> r.Some?
    ensures warned <==> r.None?
  {
    var w := new SendToPositionWindow(currentPosition, max);
    w.EditText(text);
    warned := w.OkClick();
    r, isClosed := w.result, w.closed;
  }
}
