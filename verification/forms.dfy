/**
 * Cleaning of the amount fields of the bid form and of the new-listing form:
 * both accept a decimal of at most ten digits, at most two of them after the
 * point, and not below zero.
 */
module Forms {
  import opened Decimals
  import opened Models

  /** The form's lower bound (`min_value=0`). */
  predicate NotBelowZero(d: RawDecimal)
  {
    !d.negative || d.coefficient == 0
  }

  /**
   * The cleaned amount in cents, or None when the form is invalid. `input`
   * is None when nothing that reads as a finite decimal was submitted.
   */
  function CleanAmount(input: Option<RawDecimal>): (r: Option<int>)
    ensures r.Some? <==>
      && input.Some?
      && NotBelowZero(input.value)
      && input.value.exponent >= -(DecimalPlaces as int)
      && input.value.coefficient * Pow10(input.value.exponent + DecimalPlaces) < CentsLimit()
    ensures r.Some? ==> r.value == input.value.coefficient * Pow10(input.value.exponent + DecimalPlaces)
    ensures r.Some? ==> 0 <= r.value && FitsField(r.value)
  {
    match input
    case None => None
    case Some(d) =>
      FitsDigitsIff(d);
      if FitsDigits(d) && NotBelowZero(d) then Some(ToCents(d)) else None
  }
}
