/**
 * The exceptions the request pipeline raises, grouped by the family its catch clauses
 * distinguish, with the text Throwable.toString gives the unchecked ones.
 */
module Failures {
  import opened JavaStrings

  /** The three arithmetic subclasses of ComputationException. */
  datatype ArithmeticFault = NotANumber | DivisionByZero | ZeroOverZero

  /** Unchecked exceptions that escape the domain catch clauses. */
  datatype Unchecked =
    | IllegalArgument(message: string)
    | NumberFormat(message: string)
    | IndexOutOfBounds(index: nat, length: nat)
    | NullPointer
  {
    /** Throwable.toString: the class name, then ": " and the message when there is one. */
    function Text(): string
    {
      match this
      case IllegalArgument(m) => "java.lang.IllegalArgumentException: " + m
      case NumberFormat(m) => "java.lang.NumberFormatException: " + m
      case IndexOutOfBounds(i, n) =>
        "java.lang.IndexOutOfBoundsException: Index " + NatToString(i) +
        " out of bounds for length " + NatToString(n)
      case NullPointer => "java.lang.NullPointerException"
    }
  }

  /**
   * An exception as the pipeline's catch clauses see it. NonTermination stands for a
   * domain loop that never ends, which the server cuts off with its computation timeout.
   */
  datatype Raised =
    | ExpressionException(message: string)
    | VariableValuesFunctionException(message: string)
    | ComputationException(fault: ArithmeticKind, message: string)
    | RuntimeException(cause: Unchecked)
    | NonTermination

  /** Which ComputationException class was thrown: a plain one, or an arithmetic subclass. */
  datatype ArithmeticKind = Plain | Arithmetic(fault: ArithmeticFault)
}
