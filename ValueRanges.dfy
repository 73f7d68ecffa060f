/** VariableValues: one variable's name and its lower:step:upper range, validated on construction. */
module ValueRanges {
  import opened Wrappers
  import opened Failures

  datatype VariableValues = VariableValues(variable: string, lower: real, step: real, upper: real)

  const StepMessage: string := "Step must be greater than 0."

  /**
   * The validating constructor: exactly the non-positive steps are rejected, with the step
   * message; the bounds are not compared with each other, and an accepted range is stored as given.
   */
  function NewVariableValues(variable: string, lower: real, step: real, upper: real): (r: Result<VariableValues, Raised>)
    ensures r.Success? <==> step > 0.0
    ensures r.Success? ==> r.value.variable == variable && r.value.lower == lower &&
                           r.value.step == step && r.value.upper == upper
    ensures r.Failure? ==> r.error == VariableValuesFunctionException(StepMessage)
  {
    if step <= 0.0 then Failure(VariableValuesFunctionException(StepMessage))
    else Success(VariableValues(variable, lower, step, upper))
  }
}
