/**
 * RequestHandler: a request line is classified as a stat request or a computation request
 * by its leading text, processed, and its response time recorded; any other line is refused
 * with an IllegalArgumentException's message.
 */
module RequestHandling {
  import opened Wrappers
  import opened JavaStrings
  import opened Kinds
  import opened Failures
  import opened Platforms
  import opened Responses
  import opened Statistics
  import opened StatRequests
  import opened DomainParsing
  import opened Computing
  import opened ComputationRequests

  const InvalidFormatMessage: string := "(IllegalArgumentException) " + "Invalid request format"

  // ---------------------------------------------------------------------------
  // isComputationRequest

  /**
   * The pattern "^(MIN|MAX|AVG|COUNT)_(GRID|LIST);" found in the line: the line starts with
   * a kind part naming both kinds, followed by ';'.
   */
  predicate IsComputationRequest(s: string)
  {
    exists k, v :: k in ComputationKinds && v in ValuesKinds && KindHeader(k, v) + ";" <= s
  }

  /** A line that starts with a known kind part and ';' is a computation request. */
  lemma HeaderMakesComputationRequest(k: ComputationKind, v: ValuesKind, rest: string)
    ensures IsComputationRequest(KindHeader(k, v) + ";" + rest)
  {
    ComputationKindsComplete(k);
    ValuesKindsComplete(v);
    var s := KindHeader(k, v) + ";" + rest;
    assert s[..|KindHeader(k, v) + ";"|] == KindHeader(k, v) + ";";
  }

  /**
   * A computation request's first part is its kind part, which names both kinds; the
   * function part is then read with those kinds, never with a null one.
   */
  lemma ComputationRequestKinds(p: Platform, start: Extremes, s: string) returns (k: ComputationKind, v: ValuesKind)
    requires IsComputationRequest(s)
    ensures var parts := JavaSplit(s, ';');
            |parts| >= 1 && parts[0] == KindHeader(k, v)
    ensures var parts := JavaSplit(s, ';');
            |parts| >= 3 ==>
              ProcessRequest(p, start, s) ==
              Render(Stages(p, start, ParseFunction(ComProject, p, parts[1], Some(v), Some(k)), parts[2..]))
  {
    k, v :| k in ComputationKinds && v in ValuesKinds && KindHeader(k, v) + ";" <= s;
    HeaderIsFirstPart(s, k, v);
    if |JavaSplit(s, ';')| >= 3 {
      ProcessWithHeader(p, start, JavaSplit(s, ';'), k, v);
    }
  }

  lemma HeaderIsFirstPart(s: string, k: ComputationKind, v: ValuesKind)
    requires KindHeader(k, v) + ";" <= s
    ensures var parts := JavaSplit(s, ';');
            |parts| >= 1 && parts[0] == KindHeader(k, v)
  {
    var h := KindHeader(k, v);
    var rest := s[|h| + 1..];
    assert s == h + [';'] + rest;
    KindHeaderHasNoSeparator(k, v);
    JavaSplitFirst(h, ';', rest);
  }

  lemma ProcessWithHeader(p: Platform, start: Extremes, parts: seq<string>, k: ComputationKind, v: ValuesKind)
    requires |parts| >= 3 && parts[0] == KindHeader(k, v)
    ensures Pipeline(p, start, parts) == Stages(p, start, ParseFunction(ComProject, p, parts[1], Some(v), Some(k)), parts[2..])
  {
    var rest := parts[1..];
    assert parts == [KindHeader(k, v)] + rest;
    assert rest[0] == parts[1] && rest[1..] == parts[2..];
    KnownKindsReachCompute(p, start, k, v, rest);
  }

  lemma KindHeaderHasNoSeparator(k: ComputationKind, v: ValuesKind)
    ensures ';' !in KindHeader(k, v) && KindHeader(k, v) != ""
  {
  }

  // ---------------------------------------------------------------------------
  // isStatRequest

  /** The line terminators Java's "$" may stand before at the end of the input. */
  const LineTerminators: seq<string> := ["\n", "\r\n", "\r", "\U{0085}", "\U{2028}", "\U{2029}"]

  /**
   * The pattern "^(STAT_REQS|STAT_AVG_TIME|STAT_MAX_TIME)$" found in the line, as written:
   * "$" also matches before one final line terminator.
   */
  predicate IsStatRequestAsWritten(s: string)
  {
    (exists t :: t in StatTypes && s == t.RequestString()) ||
    (exists t, e :: t in StatTypes && e in LineTerminators && s == t.RequestString() + e)
  }

  /** The classification the handler relies on: the line is exactly a stat type's request string. */
  predicate IsStatRequest(s: string)
  {
    exists t :: t in StatTypes && s == t.RequestString()
  }

  /** A line is a stat request exactly when the stat type lookup finds it. */
  lemma StatRequestIffKnownType(s: string)
    ensures IsStatRequest(s) <==> StatTypeFromString(s).Some?
  {
    if StatTypeFromString(s).Some? {
      StatTypesComplete(StatTypeFromString(s).value);
    }
  }

  /**
   * The as-written pattern accepts every exact stat request, and besides those only a stat
   * request string followed by one line terminator.
   */
  lemma AsWrittenAddsOnlyTerminators(s: string)
    ensures IsStatRequest(s) ==> IsStatRequestAsWritten(s)
    ensures IsStatRequestAsWritten(s) && !IsStatRequest(s) ==>
            exists t, e :: t in StatTypes && e in LineTerminators && s == t.RequestString() + e
  {
  }

  /** The two classifications never both hold: no stat request starts with a kind part. */
  lemma ClassificationExclusive(s: string)
    ensures IsStatRequestAsWritten(s) ==> !IsComputationRequest(s)
  {
    ComputationLineStart(s);
    if IsStatRequestAsWritten(s) {
      StatLineStart(s);
    }
  }

  lemma StatLineStart(s: string)
    requires IsStatRequestAsWritten(s)
    ensures |s| > 0 && s[0] == 'S'
  {
    var t: StatType :| t in StatTypes && t.RequestString() <= s;
    assert s[0] == t.RequestString()[0];
  }

  lemma ComputationLineStart(s: string)
    ensures IsComputationRequest(s) ==> |s| > 0 && s[0] != 'S'
  {
    if IsComputationRequest(s) {
      var k, v :| k in ComputationKinds && v in ValuesKinds && KindHeader(k, v) + ";" <= s;
      assert s[0] == (KindHeader(k, v) + ";")[0] == k.RequestString()[0];
    }
  }

  // ---------------------------------------------------------------------------
  // handleRequest

  /**
   * handleRequest, given how the line was classified: a stat request answers from the
   * response times recorded before it, a computation request is processed, and anything
   * else gets the IllegalArgumentException's message. A failure is an exception that
   * escapes handleRequest.
   */
  function Answer(p: Platform, start: Extremes, s: string, stat: bool, computation: bool, times: seq<int>): Result<Response, Raised>
  {
    if stat then StatResponse(StatTypeFromString(s), times)
    else if computation then Success(ProcessRequest(p, start, s))
    else Success(Err(ErrorResponse(InvalidFormatMessage)))
  }

  /**
   * handleRequest as written: the pattern that lets a final line terminator through, and MIN
   * and MAX folded from Double.MAX_VALUE and Double.MIN_VALUE.
   */
  function HandleAsWritten(p: Platform, s: string, times: seq<int>): Result<Response, Raised>
  {
    Answer(p, AsWrittenStart, s, IsStatRequestAsWritten(s), IsComputationRequest(s), times)
  }

  /** handleRequest with the exact stat classification and the corrected MAX start. */
  function Handle(p: Platform, s: string, times: seq<int>): Result<Response, Raised>
  {
    Answer(p, LowestStart, s, IsStatRequest(s), IsComputationRequest(s), times)
  }

  /** Whether handleRequest records a response time for the line. */
  predicate Recorded(s: string)
  {
    IsStatRequest(s) || IsComputationRequest(s)
  }

  /**
   * As written, a stat request string followed by U+2028 is classified as a stat request, the
   * stat type lookup yields null, and the switch's NullPointerException escapes the handler.
   */
  lemma AsWrittenSeparatorEscapes(p: Platform, times: seq<int>)
    ensures IsStatRequestAsWritten("STAT_REQS\U{2028}")
    ensures HandleAsWritten(p, "STAT_REQS\U{2028}", times) == Failure(RuntimeException(NullPointer))
  {
    TerminatedStatLine(StatReqs, 4);
    assert StatReqs.RequestString() + LineTerminators[4] == "STAT_REQS\U{2028}";
  }

  /** Every stat request string followed by a line terminator passes the as-written pattern. */
  lemma TerminatedStatLine(t: StatType, i: nat)
    requires i < |LineTerminators|
    ensures IsStatRequestAsWritten(t.RequestString() + LineTerminators[i])
  {
    StatTypesComplete(t);
    var e := LineTerminators[i];
    assert e in LineTerminators;
    assert t in StatTypes && e in LineTerminators && t.RequestString() + e == t.RequestString() + e;
  }

  /** With the exact classification every line is answered: no exception escapes. */
  lemma HandleAlwaysAnswers(p: Platform, s: string, times: seq<int>)
    ensures Handle(p, s, times).Success?
  {
    StatRequestIffKnownType(s);
  }

  /** A line is refused as malformed exactly when no response time is recorded for it. */
  lemma RefusedIffNotRecorded(p: Platform, s: string, times: seq<int>)
    ensures Handle(p, s, times) == Success(Err(ErrorResponse(InvalidFormatMessage))) <==> !Recorded(s)
  {
    if IsStatRequest(s) {
      StatRequestIffKnownType(s);
    } else if IsComputationRequest(s) {
      ProcessedNotRefused(p, LowestStart, s);
    }
  }

  /** No computation request is answered with the malformed-line message. */
  lemma ProcessedNotRefused(p: Platform, start: Extremes, s: string)
    ensures ProcessRequest(p, start, s) != Err(ErrorResponse(InvalidFormatMessage))
  {
    var parts := JavaSplit(s, ';');
    if |parts| < 3 {
      assert FewPartsMessage[0] != InvalidFormatMessage[0];
    } else {
      var r := Pipeline(p, start, parts);
      if r.Failure? {
        RenderNamesFamily(r.error);
        InvalidFormatHasNoFamily();
      }
    }
  }

  lemma InvalidFormatHasNoFamily()
    ensures FamilyOf(InvalidFormatMessage) == 0
  {
    var m := InvalidFormatMessage;
    assert m[0] == '(' && m[1] == 'I';
    NotPrefixAt("(ExpressionException) : ", m, 1);
    NotPrefixAt("(VariableValuesFunctionException) : ", m, 1);
    NotPrefixAt("(ComputationException) : ", m, 1);
    NotPrefixAt("Cannot compute due to ", m, 0);
    assert TimeoutMessage[1] == 'C';
  }

  /** A stat request answers from the times recorded before it. */
  lemma StatAnswerFromEarlierTimes(p: Platform, t: StatType, times: seq<int>)
    ensures Handle(p, t.RequestString(), times) == StatResponse(Some(t), times)
  {
    StatTypesComplete(t);
    StatTypeRoundTrip(t);
  }

  /** The handler: the collector shared by its stat requests. */
  class RequestHandler {
    const statsCollector: StatsCollector

    constructor(collector: StatsCollector)
      ensures statsCollector == collector
    {
      statsCollector := collector;
    }

    /**
     * handleRequest for a line whose processing takes responseTime nanoseconds: the response,
     * and that time recorded when the line was a request.
     */
    method HandleRequest(p: Platform, requestString: string, responseTime: int) returns (response: Response)
      requires statsCollector.Valid()
      modifies statsCollector
      ensures statsCollector.Valid()
      ensures Handle(p, requestString, old(statsCollector.times)) == Success(response)
      ensures statsCollector.times ==
              old(statsCollector.times) + (if Recorded(requestString) then [responseTime] else [])
    {
      if IsStatRequest(requestString) {
        var request := new StatRequest(requestString, statsCollector);
        StatRequestIffKnownType(requestString);
        var r := request.Process();
        response := r.value;
      } else if IsComputationRequest(requestString) {
        var request := new ComputationRequest(requestString);
        response := request.Process(p, LowestStart);
      } else {
        return Err(ErrorResponse(InvalidFormatMessage));
      }
      statsCollector.AddResponse(responseTime);
    }
  }
}
