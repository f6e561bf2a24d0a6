/**
 * The settings form's range check: `validateRangeInt(variable, min, max)`
 * returns a validator that converts the entered value to a BigInt and answers
 * with the text of the error it raises, or with nothing when the value is
 * accepted. Both bounds are inclusive; the upper one may be `Infinity`.
 */
module SettingsValidation {
  import opened Wrappers
  import opened Text

  /** An inclusive upper bound: a number or `Infinity`. */
  datatype Bound = Finite(n: int) | Infinity

  /**
   * The entered value as `BigInt(value)` sees it: an integer, or anything
   * else (a fraction, `undefined`), for which the conversion itself raises an
   * error whose rendered text the JavaScript engine supplies.
   */
  datatype SettingValue = IntegerValue(n: int) | NonInteger(conversionError: string)

  predicate AtMost(n: int, max: Bound) {
    max.Infinity? || n <= max.n
  }

  /** How a bound prints inside a template literal. */
  function BoundText(b: Bound): (s: string)
    ensures b.Finite? ==> s == IntToDecimal(b.n)
  {
    match b
    case Finite(n) => IntToDecimal(n)
    case Infinity => "Infinity"
  }

  /** A message made of fixed texts followed by a rendered number determines the number. */
  lemma {:induction false} ReportedValueDetermined(text: string, caption: string, a: int, b: int)
    requires text + (caption + IntToDecimal(a)) == text + (caption + IntToDecimal(b))
    ensures a == b
  {
    var k := |text| + |caption|;
    assert IntToDecimal(a) == (text + (caption + IntToDecimal(a)))[k..];
    assert IntToDecimal(b) == (text + (caption + IntToDecimal(b)))[k..];
    IntToDecimalInjective(a, b);
  }

  /** The text of the below-min error before the received value. */
  function BelowMinText(variable: string, minInclusive: int): (t: string)
    ensures var head := "RangeError: " + variable; |t| > |head| && t[..|head|] == head
  {
    var head := "RangeError: " + variable;
    var t := head + (" must be greater than " + IntToDecimal(minInclusive));
    assert t[..|head|] == head;
    t
  }

  /** The text of the above-max error before the received value. */
  function AboveMaxText(variable: string, maxInclusive: Bound): (t: string)
    ensures var head := "RangeError: " + variable; |t| > |head| && t[..|head|] == head
  {
    var head := "RangeError: " + variable;
    var t := head + (" must be less than " + BoundText(maxInclusive));
    assert t[..|head|] == head;
    t
  }

  /** `String(err)` of the error raised for a value below the minimum. */
  function BelowMinMessage(variable: string, minInclusive: int, received: int): (msg: string)
    ensures var head := "RangeError: " + variable;
      |msg| > |head| && msg[..|head|] == head
    ensures var tail := ", received " + IntToDecimal(received);
      |msg| > |tail| && msg[|msg| - |tail|..] == tail
  {
    var t, tail := BelowMinText(variable, minInclusive), ", received " + IntToDecimal(received);
    assert (t + tail)[..|t|] == t && (t + tail)[|t|..] == tail;
    t + tail
  }

  /** `String(err)` of the error raised for a value above the maximum. */
  function AboveMaxMessage(variable: string, maxInclusive: Bound, received: int): (msg: string)
    ensures var head := "RangeError: " + variable;
      |msg| > |head| && msg[..|head|] == head
    ensures var tail := ", received " + IntToDecimal(received);
      |msg| > |tail| && msg[|msg| - |tail|..] == tail
  {
    var t, tail := AboveMaxText(variable, maxInclusive), ", received " + IntToDecimal(received);
    assert (t + tail)[..|t|] == t && (t + tail)[|t|..] == tail;
    t + tail
  }

  /**
   * The validator: no message exactly when the value is an integer within
   * [minInclusive, maxInclusive]; otherwise the conversion error, or the
   * message for the first bound that fails (the lower bound is checked first).
   */
  function ValidateRangeInt(variable: string, minInclusive: int, maxInclusive: Bound, value: SettingValue)
    : (error: Option<string>)
    ensures error.None? <==> value.IntegerValue? && minInclusive <= value.n && AtMost(value.n, maxInclusive)
    ensures value.NonInteger? ==> error == Some(value.conversionError)
    ensures value.IntegerValue? && value.n < minInclusive ==>
      error == Some(BelowMinMessage(variable, minInclusive, value.n))
    ensures value.IntegerValue? && minInclusive <= value.n && !AtMost(value.n, maxInclusive) ==>
      error == Some(AboveMaxMessage(variable, maxInclusive, value.n))
  {
    match value
    case NonInteger(e) => Some(e)
    case IntegerValue(b) =>
      if b < minInclusive then Some(BelowMinMessage(variable, minInclusive, b))
      else if !AtMost(b, maxInclusive) then Some(AboveMaxMessage(variable, maxInclusive, b))
      else None
  }

  /** The below-min message reports the received value exactly: two different
      received values never give the same message. */
  lemma BelowMinMessageReportsValue(variable: string, minInclusive: int, a: int, b: int)
    requires BelowMinMessage(variable, minInclusive, a) == BelowMinMessage(variable, minInclusive, b)
    ensures a == b
  {
    ReportedValueDetermined(BelowMinText(variable, minInclusive), ", received ", a, b);
  }


  /** The above-max message reports the received value exactly as well. */
  lemma AboveMaxMessageReportsValue(variable: string, maxInclusive: Bound, a: int, b: int)
    requires AboveMaxMessage(variable, maxInclusive, a) == AboveMaxMessage(variable, maxInclusive, b)
    ensures a == b
  {
    ReportedValueDetermined(AboveMaxText(variable, maxInclusive), ", received ", a, b);
  }


  /** With an infinite maximum only the lower bound can fail. */
  lemma UnboundedAboveOnlyLowerBoundFails(variable: string, minInclusive: int, n: int)
    ensures ValidateRangeInt(variable, minInclusive, Infinity, IntegerValue(n)).Some? <==> n < minInclusive
    ensures n >= minInclusive ==> ValidateRangeInt(variable, minInclusive, Infinity, IntegerValue(n)) == None
  {
  }

  /** Setting Y (the window in seconds) accepts exactly the integers from 500 up. */
  function ValidateTimeframe(value: SettingValue): (error: Option<string>)
    ensures error.None? <==> value.IntegerValue? && value.n >= 500
  {
    ValidateRangeInt("Y", 500, Infinity, value)
  }

  /** Setting X (messages allowed) accepts exactly the integers 2 to 20. */
  function ValidateMessages(value: SettingValue): (error: Option<string>)
    ensures error.None? <==> value.IntegerValue? && 2 <= value.n <= 20
  {
    ValidateRangeInt("X", 2, Finite(20), value)
  }
}
