# ExpressionServer request pipeline, modelled in Dafny

ExpressionServer is a line-oriented TCP server. A client sends requests of two kinds.

- A **statistics request** is one of `STAT_REQS`, `STAT_AVG_TIME` or `STAT_MAX_TIME`. It is answered from the counters of the shared `StatsCollector`.
- A **computation request** has the form `Kind_ValuesKind;VariablesPart;e1;...;en`. An example is `MAX_GRID;x0:-1:0.1:1,x1:-10:1:20;((x0+(2.0^x1))/(1-x0));(x1*x0)`.
  - The variables part gives each variable a range `name:lower:step:upper`.
  - Each range is turned into a list of values. The lists are combined into value tuples: the cartesian product for `GRID`, or the values position by position for `LIST`.
  - Every expression is parsed by a recursive-descent parser for the grammar `<e> ::= <n> | <v> | (<e> <o> <e>)`.
  - `MIN`, `MAX`, `AVG` or `COUNT` is computed over the tuples.
  - Every failure on the way is turned into an error line `ERR;<message>`, whose message names the failing family.

The modules follow the Java classes:

| module | models |
|---|---|
| `Expressions`, `ExpressionParsing` | `Node`, `Operator.Type`, `Expression`, and `ExpressionParser` |
| `JavaStrings`, `Numbers` | `String.replace(" ", "")`, `String.split`, `Computer.round`, and the `Double` sentinels |
| `Kinds` | `ComputationKind` and `ValuesKind` |
| `ValueRanges` | `VariableValues` |
| `VariableDomains` | `VariableValuesFunction` |
| `DomainParsing` | both `VariableValuesFunctionParser`s |
| `Computing` | both `Computer`s |
| `ComputationRequests`, `StatRequests`, `RequestHandling` | the three request classes |
| `Statistics` | `StatsCollector` |
| `Responses` | `ErrorResponse` |
| `Failures` | the exception families |
| `Platforms` | what the model leaves abstract |

How the Java code is modelled:

- **Imperative code becomes methods.**
  - The parser keeps its cursor as a field of `ExpressionParser`.
  - `StatsCollector` is a class whose `AddResponse` updates its three counters.
  - The loops in `parseExpressions`, in `parse`, in the `VariableValuesFunction` constructor, in `cartesianProduct`, in `generateListValueTuples`, in `computeMinMax` and in `computeAvg` are `for` loops.
- **Every method is proved equal to a specification function.** The properties are then proved about those functions.
- **Exceptions become values.** A thrown exception is a `Failure` of the `Raised` datatype. A response is `Ok(number)` or `Err(ErrorResponse)`.
- **A double is `Val(real)` or `NaN`.**
- **Parameters stand for everything outside the visible code.** The client's response time is a parameter of `HandleRequest`. The operator functions, `Node.toString`, the iteration order of the variables' `HashMap` and `Double.parseDouble` are fields of a `Platform` value, passed as a parameter.

The two Java packages, `com.project` and `it.units.expressionserver`, hold near-identical copies of `Computer` and `VariableValuesFunctionParser`.

- The two `Computer`s are the same, so one model stands for both. The table cites whichever copy shows the line best.
- The two parsers differ only in their messages. `DomainParsing.Dialect` carries both message sets. The computation request uses the `com.project` one.

## Model

| member | source | states |
|---|---|---|
| Responses.ErrorResponse.ToString | src/it/units/expressionserver/protocol/response/ErrorResponse.java:26-28 | the line is "ERR;" followed by the message, character for character |
| Responses.ErrorMessageOf | src/it/units/expressionserver/protocol/response/ErrorResponse.java:26-28 | a line gives back a message exactly when it starts with "ERR;"; this is the reader that inverts toString |
| Responses.ErrorLineRoundTrip | src/it/units/expressionserver/protocol/response/ErrorResponse.java:15-17 | dropping the 4-character prefix of toString recovers the stored message verbatim |
| Responses.ErrorLineOfMessage | src/it/units/expressionserver/protocol/response/ErrorResponse.java:26-28 | every "ERR;" line is the toString of the response built from the rest of the line |
| Responses.ErrorLineInjective | src/it/units/expressionserver/protocol/response/ErrorResponse.java:26-28 | distinct messages serialise to distinct lines |
| Statistics.StatsCollector.constructor | src/com/project/service/StatsCollector.java:17-21 | a new collector has recorded no response, and its three counters agree with that |
| Statistics.StatsCollector.AddResponse | src/com/project/service/StatsCollector.java:31-35 | the time is appended to the recorded times; afterwards the count is their number, the total their sum, and the maximum the Math.max fold of them from 0 |
| Statistics.StatsCollector.GetTotalResponses | src/com/project/service/StatsCollector.java:42-44 | the number of responses recorded; reads the collector only |
| Statistics.StatsCollector.GetAverageResponseTime | src/com/project/service/StatsCollector.java:53-58 | 0 without responses, and otherwise the sum of the recorded times divided by their number |
| Statistics.StatsCollector.GetMaxResponseTime | src/com/project/service/StatsCollector.java:66-68 | the largest recorded time, and 0 when none was recorded |
| Statistics.LargestBounds | src/com/project/service/StatsCollector.java:34 | the maximum is at least 0 and at least every recorded time, and it is 0 or one of the times |
| Statistics.SumBounds | src/com/project/service/StatsCollector.java:31-35 | for non-negative times the total lies between 0 and count times maximum |
| Statistics.MeanWithinLargest | src/com/project/service/StatsCollector.java:53-58 | for non-negative times the average lies between 0 and the maximum |
| StatRequests.StatTypeFromString | src/com/project/protocol/request/StatRequest.java:34-36 | a constant found has that request string; null exactly when no constant has it |
| StatRequests.StatTypeRoundTrip | src/com/project/protocol/request/StatRequest.java:20-36 | looking up a constant's own request string finds that constant |
| StatRequests.StatTypesComplete | src/com/project/protocol/request/StatRequest.java:12-14 | values() lists every stat type |
| StatRequests.StatResponse | src/com/project/protocol/request/StatRequest.java:62-73 | the switch fails, with a NullPointerException, exactly for a null stat type; otherwise it answers with a number |
| StatRequests.AverageAtMostMaximum | src/com/project/protocol/request/StatRequest.java:66-69 | for non-negative times the reported average lies between 0 and the reported maximum |
| StatRequests.StatRequest.constructor | src/com/project/protocol/request/StatRequest.java:49-52 | the stat type is the lookup of the whole request string; the collector is the one given |
| StatRequests.StatRequest.Process | src/com/project/protocol/request/StatRequest.java:62-73 | the answer is StatResponse of the type over the collector's recorded times: the count, or the average or maximum nanoseconds divided by 1e9; it modifies nothing |
| Kinds.ComputationKindFromString | src/com/project/service/Computer.java:46-48 | a constant found has that request string; null exactly when no constant has it |
| Kinds.ComputationKindRoundTrip | src/com/project/service/Computer.java:32-48 | looking up each of the four kinds' own strings finds that kind |
| Kinds.ComputationKindsComplete | src/com/project/service/Computer.java:23-26 | values() lists every computation kind |
| Kinds.ValuesKindFromString | src/com/project/domain/variablevaluesfunction/VariableValuesFunction.java:37-39 | a constant found has that request string; null exactly when no constant has it |
| Kinds.ValuesKindRoundTrip | src/com/project/domain/variablevaluesfunction/VariableValuesFunction.java:23-39 | looking up GRID or LIST finds that kind |
| Kinds.ValuesKindsComplete | src/com/project/domain/variablevaluesfunction/VariableValuesFunction.java:16-17 | values() lists every values kind |
| JavaStrings.StripSpaces | src/it/units/expressionserver/domain/expression/ExpressionParser.java:22 | removes the space character and nothing else: no space is left, and every other character occurs in the result exactly when it occurs in the input |
| JavaStrings.StripSpacesIdentity | src/it/units/expressionserver/domain/expression/ExpressionParser.java:22 | a text without spaces is left as it is |
| JavaStrings.StripSpacesAppend | src/it/units/expressionserver/domain/expression/ExpressionParser.java:22 | stripping distributes over concatenation |
| JavaStrings.DropTrailingEmpty | src/com/project/protocol/request/ComputationRequest.java:52 | split keeps a prefix of the fields whose last field is non-empty, and drops only empty fields |
| JavaStrings.FieldsJoin | src/com/project/protocol/request/ComputationRequest.java:52 | the fields joined with the delimiter give back the text, and no field contains the delimiter |
| JavaStrings.FieldsOfPrefix | src/com/project/protocol/request/ComputationRequest.java:52 | a text that starts with a delimiter-free part and the delimiter has that part as its first field |
| JavaStrings.FieldsWithout | src/com/project/protocol/request/ComputationRequest.java:52 | a text without the delimiter is one field |
| JavaStrings.JavaSplitFirst | src/com/project/protocol/request/ComputationRequest.java:52 | split gives a non-empty leading part before the first delimiter as part 0 |
| JavaStrings.JavaSplitTwo | src/com/project/protocol/request/ComputationRequest.java:119 | "a_b", with '_' in neither a nor b and b non-empty, splits into exactly [a, b] |
| JavaStrings.NatToString | src/it/units/expressionserver/domain/expression/ExpressionParser.java:87-91 | %d: decimal digits with no leading zero; Numbers.NatToStringValue proves they spell the number |
| Numbers.Round | src/com/project/service/Computer.java:77-84 | the result is a whole number of millionths, within half a millionth of the input, with halves rounded up |
| Numbers.RoundIsUnique | src/com/project/service/Computer.java:77-84 | no other whole number of millionths lies in that window, so round is determined by it |
| Numbers.RoundProgress | src/com/project/domain/variablevaluesfunction/VariableValuesFunction.java:65 | a step of at least half a millionth always moves the rounded loop value forward |
| Numbers.RoundNoProgress | src/com/project/domain/variablevaluesfunction/VariableValuesFunction.java:65 | from a rounded value, a smaller step never moves it forward, and a non-negative one leaves it unchanged |
| Numbers.DigitRun | src/it/units/expressionserver/domain/expression/ExpressionParser.java:26 | the length of the leading run of digits: all digits, followed by a non-digit or the end |
| Numbers.ConstantValue | src/it/units/expressionserver/domain/expression/ExpressionParser.java:69 | a constant token's value is never negative |
| Numbers.IntegerConstantValue | src/it/units/expressionserver/domain/expression/ExpressionParser.java:69 | an all-digit token has its decimal value |
| Numbers.NatToStringValue | src/it/units/expressionserver/domain/expression/ExpressionParser.java:87-91 | the digits %d renders for n read back as n, so "at index <n>" names the cursor offset itself |
| Numbers.ConstantValueDigits | src/it/units/expressionserver/domain/expression/ExpressionParser.java:69 | a token with a fraction is the integer its digits spell without the point, divided by ten to the number of fraction digits |
| ValueRanges.NewVariableValues | src/it/units/expressionserver/domain/variablevaluesfunction/VariableValues.java:11-20 | accepted exactly when step > 0, so a zero step is refused; the refusal carries "Step must be greater than 0."; an accepted range stores name, lower, step and upper unchanged, with no comparison of lower and upper |
| Expressions.OperatorOf | src/it/units/expressionserver/domain/expression/ExpressionParser.java:107-114 | an operator found has the string as its symbol, and every one-character operator symbol finds one |
| Expressions.OperatorOfSymbol | src/it/units/expressionserver/domain/expression/ExpressionParser.java:109-114 | an operator's own symbol finds that operator |
| Expressions.NoSymbolNoOperator | src/it/units/expressionserver/domain/expression/ExpressionParser.java:115 | a string equal to none of the five symbols finds no operator |
| ExpressionParsing.MatchIsLongest | src/it/units/expressionserver/domain/expression/ExpressionParser.java:26-30 | a scanner's match at a position is a whole token, no longer text from there is one, and when it finds nothing no text from there is a token |
| ExpressionParsing.ConstantChars | src/it/units/expressionserver/domain/expression/ExpressionParser.java:26 | a constant token holds only digits and the decimal point |
| ExpressionParsing.Next | src/it/units/expressionserver/domain/expression/ExpressionParser.java:37-43 | the token found starts at the search position or later, and is the scanner's match there |
| ExpressionParsing.NextIsLeftmost | src/it/units/expressionserver/domain/expression/ExpressionParser.java:37-43 | no match starts between the search position and the token found, nor anywhere after it when none is found |
| ExpressionParsing.NextAtCursor | src/it/units/expressionserver/domain/expression/ExpressionParser.java:66-78 | "a token was found and starts at the cursor" holds exactly when the scanner matches anchored at the cursor, and the ends agree |
| ExpressionParsing.ParseAt | src/it/units/expressionserver/domain/expression/ExpressionParser.java:61-129 | the cursor never moves back, never passes the end of the text, and moves on at every success |
| ExpressionParsing.BracketForm | src/it/units/expressionserver/domain/expression/ExpressionParser.java:79-123 | after '(' the cursor never moves back, never passes the end, and moves on at every success |
| ExpressionParsing.CloseForm | src/it/units/expressionserver/domain/expression/ExpressionParser.java:94-122 | with both operands parsed, the cursor never moves back, never passes the end, and moves on at every success |
| ExpressionParsing.CloseFormSucceeds | src/it/units/expressionserver/domain/expression/ExpressionParser.java:97-122 | with ')' at the cursor and a symbol as the operator, the result is the operator node over the two operands, and the cursor moves past ')' |
| ExpressionParsing.BracketFormCloses | src/it/units/expressionserver/domain/expression/ExpressionParser.java:79-93 | once both operands and the operator token are found, the bracket form is decided by its closing part |
| ExpressionParsing.FindOperator | src/it/units/expressionserver/domain/expression/ExpressionParser.java:107-114 | the loop over the operator types returns the lookup's answer |
| ExpressionParsing.ExpressionParser.constructor | src/it/units/expressionserver/domain/expression/ExpressionParser.java:21-23 | the text is the input with only spaces removed, and the cursor is 0 |
| ExpressionParsing.ExpressionParser.Parse | src/it/units/expressionserver/domain/expression/ExpressionParser.java:61-129 | the result and the new cursor are ParseAt of the text at the old cursor: constant, then variable, then '(', each only when its token starts at the cursor |
| ExpressionParsing.ExpressionParser.ParseBracketForm | src/it/units/expressionserver/domain/expression/ExpressionParser.java:76-123 | the bracket branch returns and leaves the cursor as BracketForm says |
| ExpressionParsing.ExpressionParser.CloseBracketForm | src/it/units/expressionserver/domain/expression/ExpressionParser.java:94-122 | the closing bracket and the operator lookup return and leave the cursor as CloseForm says |
| ExpressionParsing.ErrorsReportCursor | src/it/units/expressionserver/domain/expression/ExpressionParser.java:62-128 | "Unexpected end" is raised only with the cursor at the end; every "Unexpected char" error names the cursor offset and the character found there; the unknown-operator error never happens |
| ExpressionParsing.NoTokenStartsHere | src/it/units/expressionserver/domain/expression/ExpressionParser.java:124-128 | a character that is no digit, lower-case letter or '(' (a tab, say) fails with "Unexpected char" at the cursor |
| ExpressionParsing.ConstantTokenInText | src/it/units/expressionserver/domain/expression/ExpressionParser.java:66-68 | a number followed by an operator symbol, ')' or the end is matched exactly |
| ExpressionParsing.VariableTokenInText | src/it/units/expressionserver/domain/expression/ExpressionParser.java:71-73 | a name followed by an operator symbol, ')' or the end is matched exactly |
| ExpressionParsing.ConstantThenParse | src/it/units/expressionserver/domain/expression/ExpressionParser.java:66-70 | a number at the cursor, followed by a delimiter or the end, parses to that constant, and the cursor moves past it |
| ExpressionParsing.VariableThenParse | src/it/units/expressionserver/domain/expression/ExpressionParser.java:71-75 | a name at the cursor, followed by a delimiter or the end, parses to that variable, and the cursor moves past it |
| ExpressionParsing.PrintThenParse | src/it/units/expressionserver/domain/expression/ExpressionParser.java:61-123 | the printed form of any well-formed tree, found in a text at i, parses back to that tree, with the cursor just past it |
| ExpressionParsing.BracketThenParse | src/it/units/expressionserver/domain/expression/ExpressionParser.java:79-93 | a bracket form whose operands are printed well-formed trees parses back to the operator node over them, with the cursor just past its ')' |
| ExpressionParsing.BracketParses | src/it/units/expressionserver/domain/expression/ExpressionParser.java:76-123 | "(", an operand, a symbol, an operand and ")" parse to the operator node over the operands |
| ExpressionParsing.PrintHasNoSpace | src/it/units/expressionserver/domain/expression/ExpressionParser.java:22 | the printed form contains no space, so stripping does not change it |
| ExpressionParsing.PrintedTextParses | src/it/units/expressionserver/domain/expression/ExpressionParser.java:57-123 | round trip: parsing a tree's printed form gives the tree, with the cursor at the end of the text, so isValidExpression holds |
| ExpressionParsing.PrintedPrefixStopsShort | src/it/units/expressionserver/domain/expression/ExpressionParser.java:57-59 | a valid expression followed by more text parses, but the cursor stops short of the end, so the text is invalid |
| ExpressionParsing.ParsedIsPrinted | src/it/units/expressionserver/domain/expression/ExpressionParser.java:61-123 | every successful parse yields a well-formed tree and consumed exactly that tree's printed form |
| ExpressionParsing.LeafIsPrinted | src/it/units/expressionserver/domain/expression/ExpressionParser.java:66-75 | a constant or variable that parses consumed exactly its own text |
| ExpressionParsing.BracketFormIsPrinted | src/it/units/expressionserver/domain/expression/ExpressionParser.java:76-123 | a bracket form that parses consumed exactly the printed form of the tree it yields |
| ComputationRequests.ParseExpression | src/com/project/protocol/request/ComputationRequest.java:144-155 | an expression parsed keeps its raw, unstripped text; a failure is an ExpressionException |
| ComputationRequests.ParseExpressionExactly | src/com/project/protocol/request/ComputationRequest.java:144-155 | a string parses to a tree exactly when the tree is well formed and prints as the string without its spaces |
| ComputationRequests.TrailingTextRefused | src/com/project/protocol/request/ComputationRequest.java:146-153 | a valid expression followed by more text is refused with "Parsing error for expression '<text>' : Invalid expression format." |
| ComputationRequests.ParseExpressions | src/com/project/protocol/request/ComputationRequest.java:138-159 | the loop parses the expression parts in order, and the first failure ends it |
| ComputationRequests.ParseRequestFunction | src/com/project/protocol/request/ComputationRequest.java:117-131 | a function parsed from the request is well formed: its key order lists each of its map's names once |
| ComputationRequests.KindHeaderParses | src/com/project/protocol/request/ComputationRequest.java:119-130 | a kind part that names both kinds splits into exactly two pieces, and both lookups find their kinds |
| ComputationRequests.RenderNamesFamily | src/com/project/protocol/request/ComputationRequest.java:74-97 | every failure is answered with an error whose label names the failure's family: the three domain families, an unchecked exception wrapped in an ExecutionException, and the timeout |
| ComputationRequests.Render | src/com/project/protocol/request/ComputationRequest.java:73-110 | the catch clauses: a value becomes an OK response carrying it, and every failure an error response |
| ComputationRequests.FunctionErrorComesFirst | src/com/project/protocol/request/ComputationRequest.java:61-70 | when the variables part fails, the request fails with that error, whatever its expressions |
| ComputationRequests.KnownKindsReachCompute | src/com/project/protocol/request/ComputationRequest.java:124-130 | a kind part that names both kinds goes on with those kinds, so neither lookup's null reaches the computation |
| ComputationRequests.ComputationRequest.constructor | src/com/project/protocol/request/ComputationRequest.java:38-42 | the request keeps its string, and no parts yet |
| ComputationRequests.ComputationRequest.ParseVariableValuesFunction | src/com/project/protocol/request/ComputationRequest.java:117-131 | returns ParseRequestFunction of parts 0 and 1 |
| ComputationRequests.ComputationRequest.Process | src/com/project/protocol/request/ComputationRequest.java:51-111 | stores the ';'-parts; fewer than three are answered with "Invalid computation request format: request parts < 3"; otherwise the pipeline's outcome from the given MIN/MAX start, rendered by the catch clauses |
| ComputationRequests.ComputationRequest.RunPipeline | src/com/project/protocol/request/ComputationRequest.java:61-70 | variables part, then tuples, then expressions, then the computation from the given MIN/MAX start; the first failure is the outcome |
| RequestHandling.HeaderMakesComputationRequest | src/com/project/protocol/request/RequestHandler.java:79-93 | every line that starts with a kind part naming both kinds and ';' is a computation request |
| RequestHandling.IsComputationRequest | src/com/project/protocol/request/RequestHandler.java:79-93 | the computation pattern, anchored at the start and ending in ';', is found exactly when the line starts with a kind part naming a computation kind and a values kind, then ';' |
| RequestHandling.ComputationRequestKinds | src/com/project/protocol/request/RequestHandler.java:88-92 | a line classified as a computation request has a kind part as part 0, and it is processed with those two kinds, never a null one |
| RequestHandling.StatRequestIffKnownType | src/com/project/protocol/request/RequestHandler.java:99-109 | a line is a stat request exactly when the stat type lookup finds its type |
| RequestHandling.IsStatRequestAsWritten | src/com/project/protocol/request/RequestHandler.java:99-109 | the stat pattern as written: the line is a stat request string, or one followed by one of the six line terminators before which `$` matches |
| RequestHandling.IsStatRequest | src/com/project/protocol/request/RequestHandler.java:99-109 | the classification the handler relies on: the line is exactly one of the three stat request strings |
| RequestHandling.AsWrittenAddsOnlyTerminators | src/com/project/protocol/request/RequestHandler.java:104-108 | the pattern as written accepts every exact stat request; besides those it accepts only a stat request string followed by one line terminator |
| RequestHandling.TerminatedStatLine | src/com/project/protocol/request/RequestHandler.java:104-108 | every stat request string followed by any of the six line terminators passes the pattern as written |
| RequestHandling.AsWrittenSeparatorEscapes | src/com/project/protocol/request/RequestHandler.java:99-109 | as written, "STAT_REQS" followed by U+2028 is classified as a stat request, and its NullPointerException escapes handleRequest |
| RequestHandling.ClassificationExclusive | src/com/project/protocol/request/RequestHandler.java:64-72 | no line is both a stat request and a computation request, even under the pattern as written |
| RequestHandling.HandleAlwaysAnswers | src/com/project/protocol/request/RequestHandler.java:41-56 | with the exact stat classification, every line gets a response and no exception escapes |
| RequestHandling.HandleAsWritten | src/com/project/protocol/request/RequestHandler.java:41-72 | handleRequest as written: a line the stat pattern accepts answers from the recorded times, a computation line is processed with MIN and MAX folded from `Double.MAX_VALUE` and `Double.MIN_VALUE`, anything else gets the invalid-format message; an NPE escapes |
| RequestHandling.Handle | src/com/project/protocol/request/RequestHandler.java:41-72 | the same dispatch with the exact stat classification and MAX folded from the lowest double |
| RequestHandling.RefusedIffNotRecorded | src/com/project/protocol/request/RequestHandler.java:41-72 | a line is answered with "(IllegalArgumentException) Invalid request format" exactly when no response time is recorded for it |
| RequestHandling.ProcessedNotRefused | src/com/project/protocol/request/RequestHandler.java:51-53 | no computation request is answered with the invalid-format message |
| RequestHandling.StatAnswerFromEarlierTimes | src/com/project/protocol/request/RequestHandler.java:45-49 | a stat request answers from the times recorded before its own |
| RequestHandling.RequestHandler.constructor | src/com/project/protocol/request/RequestHandler.java:30-34 | the handler keeps the server's collector |
| RequestHandling.RequestHandler.HandleRequest | src/com/project/protocol/request/RequestHandler.java:41-56 | the response is Handle's answer from the times recorded so far; the time is appended exactly when the line was a stat or computation request; the collector's invariant is kept |
| VariableDomains.RunStep | src/com/project/domain/variablevaluesfunction/VariableValuesFunction.java:65 | on a loop that ends, one step keeps the loop ending and strictly decreases the grid points left up to upper |
| VariableDomains.Run | src/com/project/domain/variablevaluesfunction/VariableValuesFunction.java:64-67 | the domain is non-empty exactly when lower <= upper, and then starts with lower itself, unrounded |
| VariableDomains.RunUnfold | src/com/project/domain/variablevaluesfunction/VariableValuesFunction.java:65-66 | a domain that starts within upper is its first value followed by the domain from the next rounded value |
| VariableDomains.RunShape | src/com/project/domain/variablevaluesfunction/VariableValuesFunction.java:65-67 | every value is at most upper, each value is round(previous + step), and the value after the last exceeds upper |
| VariableDomains.RunIsIteration | src/com/project/domain/variablevaluesfunction/VariableValuesFunction.java:65-67 | the k-th value is the loop variable after k steps, and the loop variable after the last value exceeds upper |
| VariableDomains.RunIncreasing | src/com/project/domain/variablevaluesfunction/VariableValuesFunction.java:65-67 | the values strictly increase |
| VariableDomains.GenerationDiverges | src/com/project/domain/variablevaluesfunction/VariableValuesFunction.java:65 | when the loop-ends condition fails for a positive step, the loop variable stays within upper forever, so the loop never ends |
| VariableDomains.GenerateValues | src/com/project/domain/variablevaluesfunction/VariableValuesFunction.java:64-67 | the loop builds exactly the domain Run describes |
| VariableDomains.LastKept | src/com/project/domain/variablevaluesfunction/VariableValuesFunction.java:56-68 | the last entry for a name that is not skipped for upper < lower, if there is one |
| VariableDomains.DomainMapEntry | src/com/project/domain/variablevaluesfunction/VariableValuesFunction.java:56-69 | a name is in the map exactly when some entry for it is not skipped, and then its domain is that of its last such entry; skipped entries leave no trace, and repeats overwrite |
| VariableDomains.InsertionOrder | src/com/project/domain/variablevaluesfunction/VariableValuesFunction.java:68 | each name the constructor puts, listed once |
| VariableDomains.Arrange | src/com/project/domain/variablevaluesfunction/VariableValuesFunction.java:103-114 | the HashMap's iteration order, shared by values() and keySet(): it lists exactly the names the map holds |
| VariableDomains.ArrangeIsPermutation | src/com/project/domain/variablevaluesfunction/VariableValuesFunction.java:114 | the key order lists each of the map's names exactly once |
| VariableDomains.ArrangeReachesEveryOrder | src/com/project/domain/variablevaluesfunction/VariableValuesFunction.java:103 | every order of the names is the key order for some platform order, so that order is left fully open |
| VariableDomains.Build | src/com/project/domain/variablevaluesfunction/VariableValuesFunction.java:52-70 | the function built is well formed and carries the two kinds given |
| VariableDomains.NewVariableValuesFunction | src/com/project/domain/variablevaluesfunction/VariableValuesFunction.java:52-70 | the constructor's loop builds the function Build describes |
| VariableDomains.Product | src/com/project/domain/variablevaluesfunction/VariableValuesFunction.java:131-132 | with no lists the product is exactly one empty tuple |
| VariableDomains.ProductLength | src/com/project/domain/variablevaluesfunction/VariableValuesFunction.java:129-142 | the number of tuples is the product of the list lengths |
| VariableDomains.ProductMembers | src/com/project/domain/variablevaluesfunction/VariableValuesFunction.java:129-142 | a tuple is in the product exactly when it has one entry per list, and its k-th entry is from the k-th list |
| VariableDomains.ProductWidth | src/com/project/domain/variablevaluesfunction/VariableValuesFunction.java:102-105 | every GRID tuple has one entry per variable |
| VariableDomains.GridOrder | src/com/project/domain/variablevaluesfunction/VariableValuesFunction.java:134-138 | lexicographic order: the first list's value is outermost, and the rest vary faster |
| VariableDomains.CartesianProduct | src/com/project/domain/variablevaluesfunction/VariableValuesFunction.java:129-142 | the recursive loops build the product of the lists from index on |
| VariableDomains.Column | src/com/project/domain/variablevaluesfunction/VariableValuesFunction.java:160-165 | tuple i holds the i-th value of each list, in key order |
| VariableDomains.Zip | src/com/project/domain/variablevaluesfunction/VariableValuesFunction.java:150-168 | with no variables get(0) throws; otherwise it succeeds exactly when all lists have the same length, and fails with the lengths message when they do not; it yields one tuple per position, the column there |
| VariableDomains.ZipWithinProduct | src/com/project/domain/variablevaluesfunction/VariableValuesFunction.java:150-168 | every LIST tuple is also a GRID tuple |
| VariableDomains.ListValueTuples | src/com/project/domain/variablevaluesfunction/VariableValuesFunction.java:150-168 | the length check and the nested loops build exactly what Zip describes |
| VariableDomains.ValueTuples | src/com/project/domain/variablevaluesfunction/VariableValuesFunction.java:86-95 | GRID gives the product of the domains in key order, and LIST the zip; a null kind makes the switch throw NullPointerException |
| VariableDomains.GenerateValueTuples | src/com/project/domain/variablevaluesfunction/VariableValuesFunction.java:86-95 | the dispatch returns ValueTuples |
| VariableDomains.IndexOf | src/com/project/domain/variablevaluesfunction/VariableValuesFunction.java:115 | indexOf: the first position holding the name, or absent when no position does |
| VariableDomains.VariableIndex | src/com/project/domain/variablevaluesfunction/VariableValuesFunction.java:113-120 | succeeds exactly for a key, giving its position in the key order; an unknown name gives "Invalid variable '<name>'" |
| VariableDomains.SlotHoldsDomainValue | src/com/project/domain/variablevaluesfunction/VariableValuesFunction.java:103-120 | the tuple slot at a variable's index holds a value of that variable's own domain, because tuples and indices share the key order |
| DomainParsing.ParseEntryContract | src/it/units/expressionserver/domain/variablevaluesfunction/VariableValuesFunctionParser.java:29-46 | an entry without four ':'-parts gets the arity message; an entry parses exactly when its last three parts parse as doubles and the step is positive; the parts are taken as name, lower, step, upper; the step error, and only it, is re-raised with the entry text |
| DomainParsing.ParseEntry | src/com/project/domain/variablevaluesfunction/VariableValuesFunctionParser.java:16-33 | an entry that parses has four ':'-parts, its first part as the name, and a positive step |
| DomainParsing.ParseAllInOrder | src/it/units/expressionserver/domain/variablevaluesfunction/VariableValuesFunctionParser.java:28-47 | on success, every entry in input order gives one value |
| DomainParsing.ParseAllFirstError | src/it/units/expressionserver/domain/variablevaluesfunction/VariableValuesFunctionParser.java:28-47 | on failure, the error is that of the first failing entry, and every entry before it parsed |
| DomainParsing.ParseAllStop | src/it/units/expressionserver/domain/variablevaluesfunction/VariableValuesFunctionParser.java:28-47 | once an entry fails, the later entries are not examined |
| DomainParsing.ParseFunction | src/it/units/expressionserver/domain/variablevaluesfunction/VariableValuesFunctionParser.java:23-50 | the function parsed is well formed and carries the kinds given |
| DomainParsing.ParseEach | src/com/project/domain/variablevaluesfunction/VariableValuesFunctionParser.java:16-34 | the loop over the entries returns ParseAll |
| DomainParsing.Parse | src/com/project/domain/variablevaluesfunction/VariableValuesFunctionParser.java:11-37 | parse returns ParseFunction: the entries, then the constructor over them |
| Computing.Eval | src/com/project/service/Computer.java:207-246 | evaluateNode: it fails only on a variable the function does not define, with its "Invalid variable" message, on a tuple too short for the variable's index, or with one of the three arithmetic exceptions |
| Computing.NaNBeforeDivision | src/com/project/service/Computer.java:234-243 | once both operands evaluate, a NaN operand raises NotANumber whatever the operator, so NaN divided by 0 is NotANumber and not a division by zero |
| Computing.EvalSucceedsOnlyOnKnownVariables | src/it/units/expressionserver/service/Computer.java:157-161 | an evaluation that succeeds only uses variables the function defines |
| Computing.UnknownVariableFails | src/it/units/expressionserver/service/Computer.java:157-161 | a tree that uses an undefined variable fails |
| Computing.WideTupleInBounds | src/it/units/expressionserver/service/Computer.java:160 | on a tuple with one slot per key, tuple.get never goes out of bounds |
| Computing.DivisionFaultsNeedDivision | src/it/units/expressionserver/service/Computer.java:171-177 | without a division node there is no division error; other operators never raise on zero |
| Computing.EvalIsLocal | src/it/units/expressionserver/service/Computer.java:153-180 | the result depends only on the tuple slots of the tree's own variables |
| Computing.ClosedTreeIgnoresTuple | src/it/units/expressionserver/service/Computer.java:153-180 | a tree without variables gives the same result on every tuple and function |
| Computing.Rewrap | src/com/project/service/Computer.java:105-114 | each of the three arithmetic exceptions is rethrown with the same class and fault, its message kept at the end after the expression's text and "' : "; every other exception passes through unchanged |
| Computing.IncludeWidens | src/it/units/expressionserver/service/Computer.java:108-113 | taking a value in never narrows the running pair, and the pair then covers the value |
| Computing.RowBounds | src/it/units/expressionserver/service/Computer.java:95-114 | after one tuple's expressions, the pair covers every expression's value on that tuple |
| Computing.MinMaxBounds | src/it/units/expressionserver/service/Computer.java:90-118 | after all tuples, the pair covers every value of every expression on every tuple |
| Computing.RowAttained | src/it/units/expressionserver/service/Computer.java:95-114 | after one tuple, each end of the pair is unchanged or is that tuple's value for some expression |
| Computing.MinMaxAttained | src/it/units/expressionserver/service/Computer.java:90-118 | each end of the result is its starting value or a value some expression takes on some tuple |
| Computing.MaxIsLargestResult | src/com/project/service/Computer.java:97-125 | from the corrected start, MAX is a value some expression takes, and no finite value taken is larger |
| Computing.MinIsSmallestResult | src/com/project/service/Computer.java:97-125 | MIN is a value some expression takes, and no finite value taken is smaller |
| Computing.AsWrittenMaxOfNegatives | src/com/project/service/Computer.java:98-99 | with the start as written, MAX of x over the domain {-5} is Double.MIN_VALUE, which no expression yields; from the corrected start it is -5 |
| Computing.AsWrittenMaxBounds | src/com/project/service/Computer.java:97-125 | from the start as written, MAX is at least Double.MIN_VALUE and at least every value taken, and it is Double.MIN_VALUE unless some expression yields it |
| Computing.AsWrittenMaxOfNonPositive | src/com/project/service/Computer.java:98-120 | as written, MAX over values all at most 0, such as `MAX_GRID;x:0:1:0;x`, is Double.MIN_VALUE, which no expression yields |
| Computing.ComputeMinMax | src/com/project/service/Computer.java:97-125 | the nested loops, tuples outermost, fold every value into the pair from the given start, AsWrittenStart being the code as written; the first error aborts, keeping its class, with the expression text prefixed |
| Computing.MinAtMostMax | src/com/project/service/Computer.java:115-120 | every value taken lies between MIN and MAX |
| Computing.Quotient | src/com/project/service/Computer.java:179 | sum / size is NaN exactly when the sum is NaN or there are no tuples |
| Computing.AvgWrap | src/com/project/service/Computer.java:174-177 | an arithmetic exception becomes a plain ComputationException about "the first expression"; anything else passes through unchanged |
| Computing.SumSucceeds | src/com/project/service/Computer.java:171-173 | the sum succeeds exactly when the first expression evaluates on every tuple |
| Computing.SumIsNaN | src/com/project/service/Computer.java:171-173 | the sum is NaN exactly when some evaluation returns NaN, since an operator's own NaN result is returned and not raised |
| Computing.AverageWithinBounds | src/com/project/service/Computer.java:167-180 | when every value of the first expression lies in [lo, hi], so does the average |
| Computing.AverageIgnoresLaterExpressions | src/it/units/expressionserver/service/Computer.java:129 | only the first expression counts: appending expressions does not change AVG |
| Computing.ComputeAvg | src/it/units/expressionserver/service/Computer.java:127-140 | the loop computes Average: get(0), the sum over the tuples, divided by their number |
| Computing.CountIgnoresExpressions | src/it/units/expressionserver/service/Computer.java:74-75 | COUNT is the number of tuples, and no expression is evaluated |
| Computing.ComputeResult | src/com/project/service/Computer.java:61-75 | dispatches on the kind: MIN and MAX from computeMinMax folded from the given start, AVG, or COUNT; a null kind makes the switch throw NullPointerException |

## Left out

- Concurrency and clocks are not modelled: the thread pool, the inner `FutureTask` and thread, the interrupt, and the 10 s and 120 s timeouts of `process`. Nothing else in the pipeline depends on them. A domain loop that never ends stands for the computation timeout, and is answered with its message. That loop also adds a value to its list on every pass, so the task may instead stop with an `OutOfMemoryError` before the timeout, answered "Cannot compute due to java.util.concurrent.ExecutionException: java.lang.OutOfMemoryError: ..."; the model gives the timeout answer, which is one of these two outcomes. The queue timeout never happens in the model. `System.nanoTime` is left out; the response time is a parameter of `HandleRequest`.
- `OkResponse` is left out: its `%.3f`/`%.6f` formatting and its elapsed time. A successful answer is `Ok(number)`.
- IEEE-754 arithmetic is left out.
  - Doubles are exact reals or NaN, with no infinities, overflow or rounding.
  - `Double.parseDouble` is an abstract function of the platform. A number token's value is its exact decimal value.
  - `Double.parseDouble` yields a real in the model. So the texts "NaN" and "Infinity", which it accepts as a domain's lower bound, upper bound or step, have no counterpart. A step of "NaN", for one, passes the `step <= 0` check, and `round` then turns every later value into 0, so the domain loop never ends when the lower bound is at most the upper bound and the upper bound is at least 0.
  - The five operator functions, which `Operator.Type` does not show, are abstract. So is `Node.toString`, which the division messages quote.
- The iteration order of `HashMap` is an abstract sequence, shared by `keySet()` and `values()`.
- `long` and `int` overflow are left out: in `round`, and in the counters of `StatsCollector`.
- `synchronized` in `StatsCollector` is read as sequential updates. Its three counters are the fields of the class; the ghost sequence of recorded times states their invariant.
- `cartesianProduct` prepends to the sublists that its recursive call returns, in place, with `add(0, value)`. The model builds new sequences instead. These sublists are fresh and unshared, so aliasing never shows, but the model does not capture the in-place update.
- The exception classes are not part of this model; their hierarchy is assumed.
  - The three arithmetic exceptions extend `ComputationException`.
  - The parsing exceptions, the building exceptions and the unknown-variable exception count as `VariableValuesFunctionException`.
  - An `IllegalArgumentException`, `NumberFormatException`, `IndexOutOfBoundsException` or `NullPointerException` inside the inner task surfaces as "Cannot compute due to java.util.concurrent.ExecutionException: ...". The text is that of Java 11 and later, without helpful NullPointerException messages.
- The `System.err` logging in `process` is left out.
- The `com.project` copies of `ExpressionParser`, `VariableValues`, `ErrorResponse` and `Expression` are not part of this model. The `it.units.expressionserver` files stand in for them.
- Strings are sequences of Unicode scalar values, not UTF-16 code units. No token matches a character outside ASCII, so a parse stops at the first such character, and every offset an error reports counts only the ASCII characters before it, the same in both readings. The difference shows in the character an error message quotes: for a character outside the BMP, `charAt` yields its high surrogate alone, where `ExpressionParsing.ParseError.Message` quotes the whole character.
- RequestHandling.RequestHandler.HandleRequest: uses the exact stat classification; the pattern as written is `RequestHandling.HandleAsWritten` (second row of Findings). It also calls `ComputationRequests.ComputationRequest.Process` with the corrected start `Computing.LowestStart`, not with `Double.MIN_VALUE` (first row of Findings). A MAX request whose values are all at most 0, such as `MAX_GRID;x:0:1:0;x`, is answered with their maximum, where the code as written, `RequestHandling.HandleAsWritten`, answers `Double.MIN_VALUE` (`Computing.AsWrittenMaxOfNonPositive`).
- The symbol set of `Operator.Type` is not part of this model; it is assumed to be exactly `+`, `-`, `*`, `/` and `^`. The claim of `ExpressionParsing.ErrorsReportCursor` that the unknown-operator error never happens rests on that set.
- The socket server, the client handlers and `main` are I/O plumbing, and are not modelled.

## Findings

| source | as written | input that shows it | evidently intended | confidence | as-written member | corrected member |
|---|---|---|---|---|---|---|
| src/com/project/service/Computer.java:99 | the running maximum starts at `Double.MIN_VALUE`, the smallest positive double, and not at the lowest double | `MAX_GRID;x:-5:1:-5;x`: the only value is -5, yet MAX answers `Double.MIN_VALUE`; likewise for every MAX whose values are all at most 0, such as `MAX_GRID;x:0:1:0;x` | MAX is the largest value taken, which requires starting from `-Double.MAX_VALUE` (the same holds in src/it/units/expressionserver/service/Computer.java:92) | high; not executed | Computing.AsWrittenMaxOfNegatives | Computing.MaxIsLargestResult |
| src/com/project/protocol/request/RequestHandler.java:104 | the pattern of the three stat strings between `^` and `$` is applied with `find()`, and Java's `$` also matches before one final line terminator | "STAT_REQS" followed by U+2028, LINE SEPARATOR, which the client's `readLine` does not split on: it is classified as a stat request, `fromRequestString` gives null, and the switch's NullPointerException escapes `handleRequest`, which catches only IllegalArgumentException | only the three exact strings are stat requests; everything else is refused as an invalid format | medium; not executed | RequestHandling.AsWrittenSeparatorEscapes | RequestHandling.HandleAlwaysAnswers |
