/**
 * The request-string enums Computer.ComputationKind and VariableValuesFunction.ValuesKind,
 * each with the static string-to-constant map that fromRequestString consults.
 */
module Kinds {
  import opened Wrappers

  datatype ComputationKind = Min | Max | Avg | Count {
    /** getRequestString. */
    function RequestString(): string
    {
      match this
      case Min => "MIN"
      case Max => "MAX"
      case Avg => "AVG"
      case Count => "COUNT"
    }
  }

  /** fromRequestString: the constant with that request string, or null for any other string. */
  function ComputationKindFromString(s: string): (r: Option<ComputationKind>)
    ensures r.Some? ==> r.value.RequestString() == s
    ensures r.None? ==> forall k: ComputationKind :: k.RequestString() != s
  {
    if s == "MIN" then Some(Min)
    else if s == "MAX" then Some(Max)
    else if s == "AVG" then Some(Avg)
    else if s == "COUNT" then Some(Count)
    else None
  }

  /** The lookup map sends every constant's request string back to that constant. */
  lemma ComputationKindRoundTrip(k: ComputationKind)
    ensures ComputationKindFromString(k.RequestString()) == Some(k)
  {
  }

  /** ComputationKind.values(), in declaration order. */
  const ComputationKinds: seq<ComputationKind> := [Min, Max, Avg, Count]

  lemma ComputationKindsComplete(k: ComputationKind)
    ensures k in ComputationKinds
  {
    match k
    case Min => assert ComputationKinds[0] == k;
    case Max => assert ComputationKinds[1] == k;
    case Avg => assert ComputationKinds[2] == k;
    case Count => assert ComputationKinds[3] == k;
  }

  datatype ValuesKind = Grid | List {
    function RequestString(): string
    {
      match this
      case Grid => "GRID"
      case List => "LIST"
    }
  }

  function ValuesKindFromString(s: string): (r: Option<ValuesKind>)
    ensures r.Some? ==> r.value.RequestString() == s
    ensures r.None? ==> forall k: ValuesKind :: k.RequestString() != s
  {
    if s == "GRID" then Some(Grid)
    else if s == "LIST" then Some(List)
    else None
  }

  lemma ValuesKindRoundTrip(k: ValuesKind)
    ensures ValuesKindFromString(k.RequestString()) == Some(k)
  {
  }

  /** ValuesKind.values(), in declaration order. */
  const ValuesKinds: seq<ValuesKind> := [Grid, List]

  lemma ValuesKindsComplete(k: ValuesKind)
    ensures k in ValuesKinds
  {
    match k
    case Grid => assert ValuesKinds[0] == k;
    case List => assert ValuesKinds[1] == k;
  }
}
