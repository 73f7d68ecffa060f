/**
 * StatRequest: the three statistics requests and what each answers from the collector.
 */
module StatRequests {
  import opened Wrappers
  import opened Numbers
  import opened Failures
  import opened Responses
  import opened Statistics

  datatype StatType = StatReqs | StatAvgTime | StatMaxTime {
    /** getRequestString. */
    function RequestString(): string
    {
      match this
      case StatReqs => "STAT_REQS"
      case StatAvgTime => "STAT_AVG_TIME"
      case StatMaxTime => "STAT_MAX_TIME"
    }
  }

  /** StatType.values(), in declaration order. */
  const StatTypes: seq<StatType> := [StatReqs, StatAvgTime, StatMaxTime]

  lemma StatTypesComplete(t: StatType)
    ensures t in StatTypes
  {
    match t
    case StatReqs => assert StatTypes[0] == t;
    case StatAvgTime => assert StatTypes[1] == t;
    case StatMaxTime => assert StatTypes[2] == t;
  }

  /** fromRequestString: the constant with that request string, or null. */
  function StatTypeFromString(s: string): (r: Option<StatType>)
    ensures r.Some? ==> r.value.RequestString() == s
    ensures r.None? ==> forall t: StatType :: t.RequestString() != s
  {
    if s == "STAT_REQS" then Some(StatReqs)
    else if s == "STAT_AVG_TIME" then Some(StatAvgTime)
    else if s == "STAT_MAX_TIME" then Some(StatMaxTime)
    else None
  }

  lemma StatTypeRoundTrip(t: StatType)
    ensures StatTypeFromString(t.RequestString()) == Some(t)
  {
  }

  /**
   * process: the count, or a time in seconds, from the recorded response times; a null
   * stat type makes the switch throw NullPointerException.
   */
  function StatResponse(statType: Option<StatType>, times: seq<int>): (r: Result<Response, Raised>)
    ensures r.Failure? <==> statType.None?
    ensures r.Failure? ==> r.error == RuntimeException(NullPointer)
    ensures r.Success? ==> r.value.Ok? && r.value.data.Val?
  {
    match statType
    case None => Failure(RuntimeException(NullPointer))
    case Some(StatReqs) => Success(Ok(Val(|times| as real)))
    case Some(StatAvgTime) => Success(Ok(Val(MeanTime(times) / 1000000000.0)))
    case Some(StatMaxTime) => Success(Ok(Val(Largest(times) as real / 1000000000.0)))
  }

  /** For non-negative times the average reported never exceeds the maximum reported. */
  lemma AverageAtMostMaximum(times: seq<int>)
    requires forall k :: 0 <= k < |times| ==> times[k] >= 0
    ensures var avg := StatResponse(Some(StatAvgTime), times).value.data.v;
            var max := StatResponse(Some(StatMaxTime), times).value.data.v;
            0.0 <= avg <= max
  {
    MeanWithinLargest(times);
  }

  /** A stat request holds its type, looked up from the whole request string, and the collector. */
  class StatRequest {
    const statType: Option<StatType>
    const statsCollector: StatsCollector

    constructor(requestString: string, collector: StatsCollector)
      ensures statType == StatTypeFromString(requestString) && statsCollector == collector
    {
      statType := StatTypeFromString(requestString);
      statsCollector := collector;
    }

    /** process, read off the collector's current state. */
    method Process() returns (r: Result<Response, Raised>)
      requires statsCollector.Valid()
      ensures r == StatResponse(statType, statsCollector.times)
    {
      match statType {
        case None =>
          r := Failure(RuntimeException(NullPointer));
        case Some(StatReqs) =>
          r := Success(Ok(Val(statsCollector.GetTotalResponses() as real)));
        case Some(StatAvgTime) =>
          r := Success(Ok(Val(statsCollector.GetAverageResponseTime() / 1000000000.0)));
        case Some(StatMaxTime) =>
          r := Success(Ok(Val(statsCollector.GetMaxResponseTime() as real / 1000000000.0)));
      }
    }
  }
}
