/**
 * ComputationRequest: the request "Kind_ValuesKind;function;e1;...;en" taken apart, the
 * pipeline function, tuples, expressions, result, and every failure turned into its
 * error response.
 */
module ComputationRequests {
  import opened Wrappers
  import opened JavaStrings
  import opened Numbers
  import opened Expressions
  import opened Kinds
  import opened Failures
  import opened Platforms
  import opened VariableDomains
  import opened ExpressionParsing
  import opened DomainParsing
  import opened Computing
  import opened Responses

  const FewPartsMessage: string := "Invalid computation request format: " + "request parts < 3"
  const KindFormatMessage: string := "Invalid computation type format."
  const InvalidExpressionMessage: string := "Invalid expression format."
  const TimeoutMessage: string := "(ComputationTimeoutException) : " + "The computation took longer than 10 seconds."

  // ---------------------------------------------------------------------------
  // parseExpressions

  function ParsingMessage(text: string, message: string): string
  {
    "Parsing error for expression '" + text + "' : " + message
  }

  /**
   * One expression string: the parser runs on the text without spaces, and the parse must
   * consume all of it; either failure is reported with the original text.
   */
  function ParseExpression(text: string): (r: Result<Expression, Raised>)
    ensures r.Success? ==> r.value.text == text
    ensures r.Failure? ==> r.error.ExpressionException?
  {
    var s := StripSpaces(text);
    var o := ParseAt(s, 0);
    match o.result
    case Failure(e) => Failure(ExpressionException(ParsingMessage(text, e.Message())))
    case Success(n) =>
      if o.cursor == |s| then Success(Expression(n, text))
      else Failure(ExpressionException(ParsingMessage(text, InvalidExpressionMessage)))
  }

  /**
   * An expression string parses to a tree exactly when the tree is well formed and prints as
   * the string with its spaces removed.
   */
  lemma ParseExpressionExactly(text: string, n: Node)
    ensures ParseExpression(text) == Success(Expression(n, text)) <==>
            WellFormed(n) && Print(n) == StripSpaces(text)
  {
    var s := StripSpaces(text);
    if WellFormed(n) && Print(n) == s {
      PrintedTextParses(n);
    }
    if ParseExpression(text) == Success(Expression(n, text)) {
      ParsedIsPrinted(s, 0);
      assert s[0..|s|] == s;
    }
  }

  /** A well-formed tree followed by more text without spaces is refused as a whole. */
  lemma TrailingTextRefused(n: Node, rest: string)
    requires WellFormed(n) && rest != [] && ' ' !in rest
    requires n.Operator? || IsDelimiter(rest[0])
    ensures ParseExpression(Print(n) + rest) ==
            Failure(ExpressionException(ParsingMessage(Print(n) + rest, InvalidExpressionMessage)))
  {
    PrintHasNoSpace(n);
    StripSpacesIdentity(Print(n) + rest);
    PrintedPrefixStopsShort(n, rest);
  }

  /** parseExpressions: every expression string in order; the first that fails ends the loop. */
  method ParseExpressions(strings: seq<string>) returns (r: Result<seq<Expression>, Raised>)
    ensures r == ParseAll(ParseExpression, strings)
  {
    var expressions: seq<Expression> := [];
    for i := 0 to |strings|
      invariant ParseAll(ParseExpression, strings[..i]) == Success(expressions)
    {
      assert strings[..i + 1][..i] == strings[..i];
      var parser := new ExpressionParser(strings[i]);
      var node := parser.Parse();
      if node.Failure? {
        ParseAllStop(ParseExpression, strings, i);
        return Failure(ExpressionException(ParsingMessage(strings[i], node.error.Message())));
      }
      if !parser.IsValidExpression() {
        ParseAllStop(ParseExpression, strings, i);
        return Failure(ExpressionException(ParsingMessage(strings[i], InvalidExpressionMessage)));
      }
      expressions := expressions + [Expression(node.value, strings[i])];
    }
    assert strings[..|strings|] == strings;
    return Success(expressions);
  }

  // ---------------------------------------------------------------------------
  // parseVariableValuesFunction

  /** The kind part split at '_': the computation kind, then the values kind; null for unknown names. */
  function ParseRequestFunction(p: Platform, kindPart: string, functionPart: string): (r: Result<VariableValuesFunction, Raised>)
    ensures r.Success? ==> r.value.Valid()
  {
    var kindParts := JavaSplit(kindPart, '_');
    if |kindParts| != 2 then Failure(RuntimeException(IllegalArgument(KindFormatMessage)))
    else
      ParseFunction(ComProject, p, functionPart,
                    ValuesKindFromString(kindParts[1]), ComputationKindFromString(kindParts[0]))
  }

  /** The kind part of a request: the two request strings joined by '_'. */
  function KindHeader(k: ComputationKind, v: ValuesKind): string
  {
    k.RequestString() + "_" + v.RequestString()
  }

  /** A kind part naming both kinds is understood: neither kind is null, no format error. */
  lemma KindHeaderParses(p: Platform, k: ComputationKind, v: ValuesKind, functionPart: string)
    ensures ParseRequestFunction(p, KindHeader(k, v), functionPart) ==
            ParseFunction(ComProject, p, functionPart, Some(v), Some(k))
  {
    assert '_' !in k.RequestString() && '_' !in v.RequestString();
    JavaSplitTwo(k.RequestString(), '_', v.RequestString());
    assert KindHeader(k, v) == k.RequestString() + ['_'] + v.RequestString();
    ComputationKindRoundTrip(k);
    ValuesKindRoundTrip(v);
  }

  // ---------------------------------------------------------------------------
  // process

  /**
   * The inner task: function, tuples, expressions and result, in that order; the first failure
   * wins. MIN and MAX fold from start: AsWrittenStart as the code has it, LowestStart corrected.
   */
  function Pipeline(p: Platform, start: Extremes, parts: seq<string>): Result<Num, Raised>
    requires |parts| >= 3
  {
    Stages(p, start, ParseRequestFunction(p, parts[0], parts[1]), parts[2..])
  }

  /** The stages after the function is parsed. */
  function Stages(p: Platform, start: Extremes, parsed: Result<VariableValuesFunction, Raised>, expressionParts: seq<string>): Result<Num, Raised>
    requires parsed.Success? ==> parsed.value.Valid()
  {
    var f :- parsed;
    var tuples :- ValueTuples(f);
    var exprs :- ParseAll(ParseExpression, expressionParts);
    Compute(p, f, tuples, exprs, start)
  }

  /**
   * The catch clauses of the inner task and of the waiting thread: the three domain families
   * get their labels; an unchecked exception comes back wrapped in an ExecutionException; a
   * domain loop that never ends runs into the computation timeout.
   */
  function Render(r: Result<Num, Raised>): (res: Response)
    ensures res.Ok? <==> r.Success?
    ensures r.Success? ==> res == Ok(r.value)
  {
    match r
    case Success(v) => Ok(v)
    case Failure(ExpressionException(m)) => Err(ErrorResponse("(ExpressionException) : " + m))
    case Failure(VariableValuesFunctionException(m)) => Err(ErrorResponse("(VariableValuesFunctionException) : " + m))
    case Failure(ComputationException(_, m)) => Err(ErrorResponse("(ComputationException) : " + m))
    case Failure(RuntimeException(u)) =>
      Err(ErrorResponse("Cannot compute due to " + ExecutionExceptionText(u)))
    case Failure(NonTermination) => Err(ErrorResponse(TimeoutMessage))
  }

  /** ExecutionException.toString for a task that threw the given unchecked exception. */
  function ExecutionExceptionText(u: Unchecked): string
  {
    "java.util.concurrent.ExecutionException: " + u.Text()
  }

  /** The label an error message starts with tells which family the failure belonged to. */
  function FamilyOf(message: string): (r: nat)
  {
    if "(ExpressionException) : " <= message then 1
    else if "(VariableValuesFunctionException) : " <= message then 2
    else if "(ComputationException) : " <= message then 3
    else if "Cannot compute due to " <= message then 4
    else if message == TimeoutMessage then 5
    else 0
  }

  function FamilyNumber(e: Raised): nat
  {
    match e
    case ExpressionException(_) => 1
    case VariableValuesFunctionException(_) => 2
    case ComputationException(_, _) => 3
    case RuntimeException(_) => 4
    case NonTermination => 5
  }

  /** The response to a failure names the failure's family; the message after the label is the exception's. */
  lemma RenderNamesFamily(e: Raised)
    ensures Render(Failure(e)).Err?
    ensures FamilyOf(Render(Failure(e)).error.errorMessage) == FamilyNumber(e)
  {
    match e
    case ExpressionException(x) => ExpressionFamily(x);
    case VariableValuesFunctionException(x) => FunctionFamily(x);
    case ComputationException(_, x) => ComputationFamily(x);
    case RuntimeException(u) => RuntimeFamily(ExecutionExceptionText(u));
    case NonTermination => TimeoutFamily();
  }

  lemma ExpressionFamily(x: string)
    ensures FamilyOf("(ExpressionException) : " + x) == 1
  {
    PrefixOfAppend("(ExpressionException) : ", x);
  }

  lemma FunctionFamily(x: string)
    ensures FamilyOf("(VariableValuesFunctionException) : " + x) == 2
  {
    var m := "(VariableValuesFunctionException) : " + x;
    assert m[1] == 'V';
    NotPrefixAt("(ExpressionException) : ", m, 1);
    PrefixOfAppend("(VariableValuesFunctionException) : ", x);
  }

  lemma ComputationFamily(x: string)
    ensures FamilyOf("(ComputationException) : " + x) == 3
  {
    var m := "(ComputationException) : " + x;
    assert m[1] == 'C';
    NotPrefixAt("(ExpressionException) : ", m, 1);
    NotPrefixAt("(VariableValuesFunctionException) : ", m, 1);
    PrefixOfAppend("(ComputationException) : ", x);
  }

  lemma RuntimeFamily(x: string)
    ensures FamilyOf("Cannot compute due to " + x) == 4
  {
    var m := "Cannot compute due to " + x;
    assert m[0] == 'C';
    NotPrefixAt("(ExpressionException) : ", m, 0);
    NotPrefixAt("(VariableValuesFunctionException) : ", m, 0);
    NotPrefixAt("(ComputationException) : ", m, 0);
    PrefixOfAppend("Cannot compute due to ", x);
  }

  lemma TimeoutFamily()
    ensures FamilyOf(TimeoutMessage) == 5
  {
    var m := TimeoutMessage;
    assert m[0] == '(' && m[1] == 'C' && m[12] == 'T';
    NotPrefixAt("(ExpressionException) : ", m, 1);
    NotPrefixAt("(VariableValuesFunctionException) : ", m, 1);
    NotPrefixAt("(ComputationException) : ", m, 12);
    NotPrefixAt("Cannot compute due to ", m, 0);
  }

  lemma NotPrefixAt(a: string, m: string, i: nat)
    requires i < |a| && i < |m| && a[i] != m[i]
    ensures !(a <= m)
  {
  }

  lemma PrefixOfAppend(a: string, x: string)
    ensures a <= a + x
  {
    assert (a + x)[..|a|] == a;
  }

  /** process: fewer than three parts is answered at once; otherwise the pipeline's outcome. */
  function ProcessRequest(p: Platform, start: Extremes, request: string): Response
  {
    var parts := JavaSplit(request, ';');
    if |parts| < 3 then Err(ErrorResponse(FewPartsMessage)) else Render(Pipeline(p, start, parts))
  }

  /** A request whose function part fails is answered with that failure, whatever its expressions. */
  lemma FunctionErrorComesFirst(p: Platform, start: Extremes, parts: seq<string>, other: seq<string>)
    requires |parts| >= 3 && |other| >= 3 && parts[..2] == other[..2]
    requires ParseRequestFunction(p, parts[0], parts[1]).Failure?
    ensures Pipeline(p, start, parts) == Pipeline(p, start, other) == Failure(ParseRequestFunction(p, parts[0], parts[1]).error)
  {
    assert parts[0] == parts[..2][0] && parts[1] == parts[..2][1];
    assert other[0] == other[..2][0] && other[1] == other[..2][1];
  }

  /**
   * A request whose kind part names both kinds goes on with those kinds: the computation
   * kind that reaches computeResult is never null.
   */
  lemma KnownKindsReachCompute(p: Platform, start: Extremes, k: ComputationKind, v: ValuesKind, rest: seq<string>)
    requires |rest| >= 2
    ensures Pipeline(p, start, [KindHeader(k, v)] + rest) ==
            Stages(p, start, ParseFunction(ComProject, p, rest[0], Some(v), Some(k)), rest[1..])
    ensures var r := ParseFunction(ComProject, p, rest[0], Some(v), Some(k));
            r.Success? ==> r.value.computationKind == Some(k) && r.value.valuesKind == Some(v)
  {
    var parts := [KindHeader(k, v)] + rest;
    KindHeaderParses(p, k, v, rest[0]);
    assert parts[2..] == rest[1..];
  }

  /** The request object: its string, and the parts process splits it into. */
  class ComputationRequest {
    const computationString: string
    var requestParts: seq<string>

    constructor(s: string)
      ensures computationString == s && requestParts == []
    {
      computationString := s;
      requestParts := [];
    }

    /** parseVariableValuesFunction. */
    method ParseVariableValuesFunction(p: Platform) returns (r: Result<VariableValuesFunction, Raised>)
      requires |requestParts| >= 2
      ensures r == ParseRequestFunction(p, requestParts[0], requestParts[1])
    {
      var kindParts := JavaSplit(requestParts[0], '_');
      if |kindParts| != 2 {
        return Failure(RuntimeException(IllegalArgument(KindFormatMessage)));
      }
      var computationKind := ComputationKindFromString(kindParts[0]);
      var valuesKind := ValuesKindFromString(kindParts[1]);
      r := Parse(ComProject, p, requestParts[1], valuesKind, computationKind);
    }

    /** process: the pipeline, run to its end, answered as ProcessRequest describes. */
    method Process(p: Platform, start: Extremes) returns (response: Response)
      modifies this
      ensures requestParts == JavaSplit(computationString, ';')
      ensures response == ProcessRequest(p, start, computationString)
    {
      requestParts := JavaSplit(computationString, ';');
      if |requestParts| < 3 {
        return Err(ErrorResponse(FewPartsMessage));
      }
      var outcome := RunPipeline(p, start);
      response := Render(outcome);
    }

    /** The body of the inner task, without its catch clauses. */
    method RunPipeline(p: Platform, start: Extremes) returns (r: Result<Num, Raised>)
      requires |requestParts| >= 3
      ensures r == Pipeline(p, start, requestParts)
    {
      var parsed := ParseVariableValuesFunction(p);
      if parsed.Failure? {
        return Failure(parsed.error);
      }
      var tuples := GenerateValueTuples(parsed.value);
      if tuples.Failure? {
        return Failure(tuples.error);
      }
      var expressions := ParseExpressions(requestParts[2..]);
      if expressions.Failure? {
        return Failure(expressions.error);
      }
      r := ComputeResult(p, parsed.value, tuples.value, expressions.value, start);
    }
  }
}
