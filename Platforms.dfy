/**
 * What the model leaves abstract about the Java platform, bundled as one parameter:
 * the arithmetic of the five operators, Node.toString, the iteration order of the
 * variables' HashMap and Double.parseDouble.
 */
module Platforms {
  import opened Wrappers
  import opened Numbers
  import opened Expressions

  datatype Platform = Platform(
    /** Operator.Type.getFunction().apply on the two child values. */
    apply: (Op, real, real) -> Num,
    /** Node.toString, quoted in the division error messages. */
    nodeText: Node -> string,
    /** The order in which the HashMap of variables lists the names it holds (others follow). */
    hashOrder: seq<string>,
    /** Double.parseDouble: a value, or the NumberFormatException message. */
    parseDouble: string -> Result<real, string>)
}
