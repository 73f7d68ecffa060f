/**
 * StatsCollector: the number of answered requests, their total and their maximum response
 * time in nanoseconds, kept up to date one response at a time.
 */
module Statistics {

  /** The sum of the recorded times. */
  function Sum(times: seq<int>): int
  {
    if times == [] then 0 else Sum(times[..|times| - 1]) + times[|times| - 1]
  }

  /** Math.max folded over the times, from 0. */
  function Largest(times: seq<int>): int
  {
    if times == [] then 0
    else
      var m := Largest(times[..|times| - 1]);
      var t := times[|times| - 1];
      if m >= t then m else t
  }

  /** The average the collector reports: 0 without responses. */
  function MeanTime(times: seq<int>): real
  {
    if |times| == 0 then 0.0 else Sum(times) as real / |times| as real
  }

  /** The maximum is at least 0 and at least every time, and it is 0 or one of the times. */
  lemma {:induction false} LargestBounds(times: seq<int>)
    ensures Largest(times) >= 0
    ensures forall k :: 0 <= k < |times| ==> times[k] <= Largest(times)
    ensures Largest(times) == 0 || Largest(times) in times
  {
    if times != [] {
      var pre := times[..|times| - 1];
      LargestBounds(pre);
      assert forall k :: 0 <= k < |pre| ==> pre[k] == times[k];
      if Largest(pre) in pre {
        assert Largest(pre) in times;
      }
    }
  }

  /** Times that are all non-negative sum to a non-negative total of at most count * maximum. */
  lemma {:induction false} SumBounds(times: seq<int>)
    requires forall k :: 0 <= k < |times| ==> times[k] >= 0
    ensures 0 <= Sum(times) <= |times| * Largest(times)
  {
    if times != [] {
      var pre := times[..|times| - 1];
      assert forall k :: 0 <= k < |pre| ==> pre[k] == times[k];
      SumBounds(pre);
      LargestBounds(pre);
      var m, m' := Largest(pre), Largest(times);
      ScaleMonotone(|pre|, m, m');
      assert |times| * m' == |pre| * m' + m';
    }
  }

  lemma ScaleMonotone(n: nat, a: int, b: int)
    requires a <= b
    ensures n * a <= n * b
  {
  }

  /** The average of non-negative times lies between 0 and the maximum. */
  lemma MeanWithinLargest(times: seq<int>)
    requires forall k :: 0 <= k < |times| ==> times[k] >= 0
    ensures 0.0 <= MeanTime(times) <= Largest(times) as real
  {
    LargestBounds(times);
    if times != [] {
      SumBounds(times);
      QuotientAtMost(Sum(times), |times|, Largest(times));
    }
  }

  lemma QuotientAtMost(s: int, n: nat, m: int)
    requires n > 0 && 0 <= s <= n * m
    ensures 0.0 <= s as real / n as real <= m as real
  {
    assert (n * m) as real == n as real * m as real;
  }

  class StatsCollector {
    var totalResponses: nat
    var totalResponseTime: int
    var maxResponseTime: int
    /** Every response time recorded so far, oldest first. */
    ghost var times: seq<int>

    ghost predicate Valid()
      reads this
    {
      totalResponses == |times| && totalResponseTime == Sum(times) && maxResponseTime == Largest(times)
    }

    constructor()
      ensures Valid() && times == []
    {
      totalResponses := 0;
      totalResponseTime := 0;
      maxResponseTime := 0;
      times := [];
    }

    /** addResponse: one more response, of the given time. */
    method AddResponse(responseTime: int)
      requires Valid()
      modifies this
      ensures Valid() && times == old(times) + [responseTime]
    {
      totalResponses := totalResponses + 1;
      totalResponseTime := totalResponseTime + responseTime;
      maxResponseTime := if maxResponseTime >= responseTime then maxResponseTime else responseTime;
      times := times + [responseTime];
      assert times[..|times| - 1] == old(times);
    }

    /** getTotalResponses: the number of responses recorded. */
    function GetTotalResponses(): (r: nat)
      requires Valid()
      reads this
      ensures r == |times|
    {
      totalResponses
    }

    /** getAverageResponseTimeNanoseconds: the total over the count, 0 without responses. */
    function GetAverageResponseTime(): (r: real)
      requires Valid()
      reads this
      ensures r == MeanTime(times)
    {
      if totalResponses == 0 then 0.0 else totalResponseTime as real / totalResponses as real
    }

    /** getMaxResponseTimeNanoseconds: the largest time recorded, 0 without responses. */
    function GetMaxResponseTime(): (r: int)
      requires Valid()
      reads this
      ensures r == Largest(times)
    {
      maxResponseTime
    }
  }
}
