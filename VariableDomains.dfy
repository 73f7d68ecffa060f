/**
 * VariableValuesFunction: the domain of each variable, built by the constructor's rounding
 * loop, the HashMap that holds the domains, and the value tuples built from them by
 * cartesian product (GRID) or by position (LIST).
 */
module VariableDomains {
  import opened Wrappers
  import opened Numbers
  import opened Kinds
  import opened Failures
  import opened ValueRanges

  // ---------------------------------------------------------------------------
  // One variable's domain: for (value = lower; value <= upper; value = round(value + step))

  /**
   * The loop ends: the domain is empty, or each step moves the rounded value forward, or the
   * first step already passes upper. For a positive step below half a millionth whose first
   * rounded value stays within upper the loop never ends (GenerationDiverges).
   */
  predicate LoopEnds(lower: real, step: real, upper: real)
  {
    upper < lower || step >= 0.0000005 || Round(lower + step) > upper
  }

  /** The value the loop variable holds after n steps. */
  function Iterate(lower: real, step: real, n: nat): real
  {
    if n == 0 then lower else Round(Iterate(lower, step, n - 1) + step)
  }

  /** The number of grid points from value up to upper: what each step uses up. */
  function Remaining(value: real, upper: real): nat
  {
    if value <= upper && (value * 1000000.0).Floor <= (upper * 1000000.0).Floor then
      ((upper * 1000000.0).Floor - (value * 1000000.0).Floor + 1) as nat
    else 0
  }

  lemma RunStep(value: real, step: real, upper: real)
    requires LoopEnds(value, step, upper) && value <= upper
    ensures LoopEnds(Round(value + step), step, upper)
    ensures Remaining(Round(value + step), upper) < Remaining(value, upper)
  {
    var next := Round(value + step);
    assert (value * 1000000.0).Floor <= (upper * 1000000.0).Floor by {
      assert value * 1000000.0 <= upper * 1000000.0;
    }
    if step >= 0.0000005 {
      RoundProgress(value, step);
      assert (next * 1000000.0).Floor == Micro(value + step);
    }
  }

  /** The values the loop emits, from lower on; RunShape states what they are. */
  function Run(lower: real, step: real, upper: real): (r: seq<real>)
    requires LoopEnds(lower, step, upper)
    ensures r != [] <==> lower <= upper
    ensures r != [] ==> r[0] == lower
    decreases Remaining(lower, upper)
  {
    if upper < lower then []
    else
      RunStep(lower, step, upper);
      [lower] + Run(Round(lower + step), step, upper)
  }

  /** One turn of the loop: emit value, then continue from the rounded next value. */
  lemma RunUnfold(value: real, step: real, upper: real)
    requires LoopEnds(value, step, upper) && value <= upper
    ensures LoopEnds(Round(value + step), step, upper)
    ensures Remaining(Round(value + step), upper) < Remaining(value, upper)
    ensures Run(value, step, upper) == [value] + Run(Round(value + step), step, upper)
  {
    RunStep(value, step, upper);
  }

  /**
   * The emitted values: lower first, each next value the rounded sum of the previous one and
   * step, every value at most upper, and the value after the last one past upper.
   */
  lemma {:induction false} RunShape(lower: real, step: real, upper: real)
    requires LoopEnds(lower, step, upper)
    ensures var r := Run(lower, step, upper);
      (forall k :: 0 <= k < |r| ==> r[k] <= upper) &&
      (forall k :: 0 < k < |r| ==> r[k] == Round(r[k - 1] + step)) &&
      (r != [] ==> Round(r[|r| - 1] + step) > upper)
    decreases Remaining(lower, upper)
  {
    if lower <= upper {
      RunStep(lower, step, upper);
      var next := Round(lower + step);
      RunShape(next, step, upper);
      var r := Run(lower, step, upper);
      var t := Run(next, step, upper);
      assert r == [lower] + t;
      forall k | 0 < k < |r| ensures r[k] == Round(r[k - 1] + step) {
        if k > 1 {
          assert r[k] == t[k - 1] && r[k - 1] == t[k - 2];
        }
      }
    }
  }

  /** Run is the sequence of loop values up to, not including, the first one past upper. */
  lemma {:induction false} RunIsIteration(lower: real, step: real, upper: real)
    requires LoopEnds(lower, step, upper)
    ensures forall k :: 0 <= k < |Run(lower, step, upper)| ==> Run(lower, step, upper)[k] == Iterate(lower, step, k)
    ensures Iterate(lower, step, |Run(lower, step, upper)|) > upper
    decreases Remaining(lower, upper)
  {
    if lower <= upper {
      var next := Round(lower + step);
      RunUnfold(lower, step, upper);
      RunIsIteration(next, step, upper);
      var r := Run(lower, step, upper);
      var t := Run(next, step, upper);
      forall k | 0 < k < |r| ensures r[k] == Iterate(lower, step, k) {
        assert r[k] == t[k - 1];
        IterateShift(lower, step, k - 1);
      }
      IterateShift(lower, step, |t|);
    }
  }

  lemma {:induction false} IterateShift(lower: real, step: real, k: nat)
    ensures Iterate(lower, step, k + 1) == Iterate(Round(lower + step), step, k)
  {
    if k > 0 {
      IterateShift(lower, step, k - 1);
    }
  }

  /** The values are strictly increasing: no value is emitted twice. */
  lemma {:induction false} RunIncreasing(lower: real, step: real, upper: real)
    requires LoopEnds(lower, step, upper)
    ensures forall j, k :: 0 <= j < k < |Run(lower, step, upper)| ==> Run(lower, step, upper)[j] < Run(lower, step, upper)[k]
    decreases Remaining(lower, upper)
  {
    if lower <= upper {
      RunStep(lower, step, upper);
      var next := Round(lower + step);
      RunIncreasing(next, step, upper);
      var r := Run(lower, step, upper);
      if |r| > 1 {
        if step >= 0.0000005 {
          RoundProgress(lower, step);
        } else {
          assert false;
        }
      }
    }
  }

  /**
   * When LoopEnds fails the loop variable never passes upper: after the first step it sits
   * on the grid and a step below half a millionth rounds back to it.
   */
  lemma {:induction false} GenerationDiverges(lower: real, step: real, upper: real, n: nat)
    requires step > 0.0 && !LoopEnds(lower, step, upper)
    ensures Iterate(lower, step, n) <= upper
  {
    if n > 1 {
      GenerationDiverges(lower, step, upper, n - 1);
      RoundNoProgress(Iterate(lower, step, n - 1), step);
    }
  }

  /** The constructor's inner loop, proved against Run. */
  method GenerateValues(lower: real, step: real, upper: real) returns (values: seq<real>)
    requires LoopEnds(lower, step, upper)
    ensures values == Run(lower, step, upper)
  {
    values := [];
    var value := lower;
    while value <= upper
      invariant LoopEnds(value, step, upper)
      invariant values + Run(value, step, upper) == Run(lower, step, upper)
      decreases Remaining(value, upper)
    {
      RunUnfold(value, step, upper);
      values := values + [value];
      value := Round(value + step);
    }
  }

  // ---------------------------------------------------------------------------
  // The HashMap of domains built by the constructor

  /** An entry the constructor keeps: the constructor skips one whose upper is below lower. */
  predicate Kept(e: VariableValues)
  {
    !(e.upper < e.lower)
  }

  /** Every entry's loop ends, so the constructor runs to completion. */
  predicate AllLoopsEnd(entries: seq<VariableValues>)
  {
    forall k :: 0 <= k < |entries| ==> LoopEnds(entries[k].lower, entries[k].step, entries[k].upper)
  }

  /** The map after the constructor's loop: each kept entry puts its domain, overwriting. */
  function DomainMap(entries: seq<VariableValues>): map<string, seq<real>>
    requires AllLoopsEnd(entries)
  {
    if entries == [] then map[]
    else
      var e := entries[|entries| - 1];
      var m := DomainMap(entries[..|entries| - 1]);
      if e.upper < e.lower then m else m[e.variable := Run(e.lower, e.step, e.upper)]
  }

  /** The index of the last kept entry for a name: the one whose domain the map ends up holding. */
  function LastKept(entries: seq<VariableValues>, x: string): (r: Option<nat>)
    ensures r.Some? ==> r.value < |entries| && entries[r.value].variable == x && Kept(entries[r.value])
    ensures r.Some? ==> forall j :: r.value < j < |entries| && entries[j].variable == x ==> !Kept(entries[j])
    ensures r.None? ==> forall j :: 0 <= j < |entries| && entries[j].variable == x ==> !Kept(entries[j])
  {
    if entries == [] then None
    else
      var e := entries[|entries| - 1];
      if e.variable == x && Kept(e) then Some(|entries| - 1)
      else LastKept(entries[..|entries| - 1], x)
  }

  /**
   * A name is in the map exactly when some entry for it is kept, and then it holds the
   * domain of the last kept entry: a skipped entry neither adds nor removes a name, and a
   * later kept entry overwrites an earlier one.
   */
  lemma {:induction false} DomainMapEntry(entries: seq<VariableValues>, x: string)
    requires AllLoopsEnd(entries)
    ensures x in DomainMap(entries) <==> LastKept(entries, x).Some?
    ensures x in DomainMap(entries) ==>
      var e := entries[LastKept(entries, x).value];
      DomainMap(entries)[x] == Run(e.lower, e.step, e.upper)
  {
    if entries != [] {
      var prefix := entries[..|entries| - 1];
      DomainMapEntry(prefix, x);
      assert forall j :: 0 <= j < |prefix| ==> prefix[j] == entries[j];
    }
  }

  predicate IsDistinct(s: seq<string>)
  {
    forall i, j :: 0 <= i < j < |s| ==> s[i] != s[j]
  }

  /** The kept names in the order they were first put into the map. */
  function InsertionOrder(entries: seq<VariableValues>): (r: seq<string>)
    ensures IsDistinct(r)
    ensures forall x :: x in r <==> LastKept(entries, x).Some?
  {
    if entries == [] then []
    else
      var o := InsertionOrder(entries[..|entries| - 1]);
      var e := entries[|entries| - 1];
      if e.upper < e.lower || e.variable in o then o else o + [e.variable]
  }

  /** The elements of s that occur in allowed, in the order of s. */
  function Only(s: seq<string>, allowed: seq<string>): (r: seq<string>)
    ensures forall x :: x in r <==> x in s && x in allowed
  {
    if s == [] then []
    else if s[|s| - 1] in allowed then Only(s[..|s| - 1], allowed) + [s[|s| - 1]]
    else Only(s[..|s| - 1], allowed)
  }

  /** The elements of s that do not occur in excluded, in the order of s. */
  function Without(s: seq<string>, excluded: seq<string>): (r: seq<string>)
    ensures forall x :: x in r <==> x in s && x !in excluded
    ensures IsDistinct(s) ==> IsDistinct(r)
  {
    if s == [] then []
    else if s[|s| - 1] in excluded then Without(s[..|s| - 1], excluded)
    else Without(s[..|s| - 1], excluded) + [s[|s| - 1]]
  }

  /** The first occurrence of every element, in order. */
  function Distinct(s: seq<string>): (r: seq<string>)
    ensures IsDistinct(r)
    ensures forall x :: x in r <==> x in s
  {
    if s == [] then []
    else
      var d := Distinct(s[..|s| - 1]);
      if s[|s| - 1] in d then d else d + [s[|s| - 1]]
  }

  /**
   * The HashMap's iteration order over the names it holds: the names in the platform's
   * preferred order, then any others in insertion order.
   */
  function Arrange(preferred: seq<string>, names: seq<string>): (r: seq<string>)
    ensures forall x :: x in r <==> x in names
  {
    Distinct(Only(preferred, names)) + Without(names, preferred)
  }

  /** The iteration order lists every name once and nothing else. */
  lemma ArrangeIsPermutation(preferred: seq<string>, names: seq<string>)
    requires IsDistinct(names)
    ensures IsDistinct(Arrange(preferred, names))
    ensures forall x :: x in Arrange(preferred, names) <==> x in names
  {
    var a, b := Distinct(Only(preferred, names)), Without(names, preferred);
    forall i, j | 0 <= i < j < |a + b| ensures (a + b)[i] != (a + b)[j] {
      if i < |a| && j >= |a| {
        assert (a + b)[i] in a && (a + b)[j] in b;
      }
    }
  }

  lemma {:induction false} DistinctOfDistinct(s: seq<string>)
    requires IsDistinct(s)
    ensures Distinct(s) == s
  {
    if s != [] {
      DistinctOfDistinct(s[..|s| - 1]);
      assert s[|s| - 1] !in s[..|s| - 1];
      assert s == s[..|s| - 1] + [s[|s| - 1]];
    }
  }

  lemma {:induction false} OnlyOfContained(s: seq<string>, allowed: seq<string>)
    requires forall x :: x in s ==> x in allowed
    ensures Only(s, allowed) == s
  {
    if s != [] {
      OnlyOfContained(s[..|s| - 1], allowed);
      assert s == s[..|s| - 1] + [s[|s| - 1]];
    }
  }

  lemma {:induction false} WithoutOfContained(s: seq<string>, excluded: seq<string>)
    requires forall x :: x in s ==> x in excluded
    ensures Without(s, excluded) == []
  {
    if s != [] {
      WithoutOfContained(s[..|s| - 1], excluded);
    }
  }

  /** Nothing is assumed about the HashMap's order: every ordering of the names is one Arrange gives. */
  lemma ArrangeReachesEveryOrder(order: seq<string>, names: seq<string>)
    requires IsDistinct(order) && forall x :: x in order <==> x in names
    ensures Arrange(order, names) == order
  {
    OnlyOfContained(order, names);
    DistinctOfDistinct(order);
    WithoutOfContained(names, order);
  }

  /**
   * VariableValuesFunction's final fields: the map of domains, the order its keySet and
   * values views list the names in, and the two kinds (null when the request named none).
   */
  datatype VariableValuesFunction = VariableValuesFunction(
    functionMap: map<string, seq<real>>,
    keys: seq<string>,
    valuesKind: Option<ValuesKind>,
    computationKind: Option<ComputationKind>)
  {
    /** keySet and values list the map's names once each, in the same order. */
    predicate Valid()
    {
      IsDistinct(keys) &&
      (forall x :: x in functionMap ==> x in keys) && (forall x :: x in keys ==> x in functionMap)
    }

    /** functionMap.values(), in key order. */
    function Values(): (r: seq<seq<real>>)
      requires Valid()
      ensures |r| == |keys|
    {
      seq(|keys|, k requires 0 <= k < |keys| => functionMap[keys[k]])
    }
  }

  /** The object the constructor builds from the entries and the two kinds. */
  function Build(entries: seq<VariableValues>, valuesKind: Option<ValuesKind>,
                 computationKind: Option<ComputationKind>, hashOrder: seq<string>): (f: VariableValuesFunction)
    requires AllLoopsEnd(entries)
    ensures f.Valid()
    ensures f.valuesKind == valuesKind && f.computationKind == computationKind
  {
    var f := VariableValuesFunction(DomainMap(entries), Arrange(hashOrder, InsertionOrder(entries)),
                                    valuesKind, computationKind);
    ArrangeIsPermutation(hashOrder, InsertionOrder(entries));
    forall x ensures (x in f.functionMap ==> x in f.keys) && (x in f.keys ==> x in f.functionMap) {
      DomainMapEntry(entries, x);
    }
    f
  }

  /** The constructor: its loop over the entries, proved against Build. */
  method NewVariableValuesFunction(entries: seq<VariableValues>, valuesKind: Option<ValuesKind>,
                                   computationKind: Option<ComputationKind>, hashOrder: seq<string>)
    returns (f: VariableValuesFunction)
    requires AllLoopsEnd(entries)
    ensures f == Build(entries, valuesKind, computationKind, hashOrder)
  {
    var functionMap: map<string, seq<real>> := map[];
    var names: seq<string> := [];
    for i := 0 to |entries|
      invariant AllLoopsEnd(entries[..i])
      invariant functionMap == DomainMap(entries[..i])
      invariant names == InsertionOrder(entries[..i])
    {
      var e := entries[i];
      assert entries[..i + 1][..i] == entries[..i];
      if e.upper < e.lower {
        continue;
      }
      var values := GenerateValues(e.lower, e.step, e.upper);
      functionMap := functionMap[e.variable := values];
      if e.variable !in names {
        names := names + [e.variable];
      }
    }
    assert entries[..|entries|] == entries;
    f := VariableValuesFunction(functionMap, Arrange(hashOrder, names), valuesKind, computationKind);
  }

  // ---------------------------------------------------------------------------
  // GRID: cartesianProduct

  /** Each tail with v put in front (the sublists' add(0, value)). */
  function Cons(v: real, tails: seq<seq<real>>): (r: seq<seq<real>>)
    ensures |r| == |tails|
  {
    seq(|tails|, k requires 0 <= k < |tails| => [v] + tails[k])
  }

  /** For each value in turn, every tail with that value in front. */
  function PrependEach(vs: seq<real>, tails: seq<seq<real>>): seq<seq<real>>
  {
    if vs == [] then [] else PrependEach(vs[..|vs| - 1], tails) + Cons(vs[|vs| - 1], tails)
  }

  /** cartesianProduct(0, lists): all tuples picking one value from each list. */
  function Product(lists: seq<seq<real>>): (r: seq<seq<real>>)
    ensures lists == [] ==> r == [[]]
  {
    if lists == [] then [[]] else PrependEach(lists[0], Product(lists[1..]))
  }

  /** The product of the list lengths. */
  function CountOf(lists: seq<seq<real>>): nat
  {
    if lists == [] then 1 else |lists[0]| * CountOf(lists[1..])
  }

  lemma {:induction false} PrependEachLength(vs: seq<real>, tails: seq<seq<real>>)
    ensures |PrependEach(vs, tails)| == |vs| * |tails|
  {
    if vs != [] {
      PrependEachLength(vs[..|vs| - 1], tails);
      assert (|vs| - 1) * |tails| + |tails| == |vs| * |tails|;
    }
  }

  /** The number of tuples is the product of the list lengths; no variables give one empty tuple. */
  lemma {:induction false} ProductLength(lists: seq<seq<real>>)
    ensures |Product(lists)| == CountOf(lists)
  {
    if lists != [] {
      ProductLength(lists[1..]);
      PrependEachLength(lists[0], Product(lists[1..]));
    }
  }

  /** Position a * |tails| + b holds value a in front of tail b. */
  lemma {:induction false} PrependEachAt(vs: seq<real>, tails: seq<seq<real>>, a: nat, b: nat)
    requires a < |vs| && b < |tails|
    ensures a * |tails| + b < |PrependEach(vs, tails)|
    ensures PrependEach(vs, tails)[a * |tails| + b] == [vs[a]] + tails[b]
  {
    var n := |vs| - 1;
    var front := PrependEach(vs[..n], tails);
    PrependEachLength(vs[..n], tails);
    PrependEachLength(vs, tails);
    assert |front| == n * |tails|;
    if a < n {
      PrependEachAt(vs[..n], tails, a, b);
      assert a * |tails| + b < n * |tails| by {
        assert (a + 1) * |tails| <= n * |tails|;
      }
    } else {
      assert a * |tails| + b == |front| + b;
    }
  }

  /**
   * The order is lexicographic: the first list's value is outermost and the last list
   * varies fastest.
   */
  lemma GridOrder(lists: seq<seq<real>>, a: nat, b: nat)
    requires lists != [] && a < |lists[0]| && b < |Product(lists[1..])|
    ensures var m := |Product(lists[1..])|;
      a * m + b < |Product(lists)| && Product(lists)[a * m + b] == [lists[0][a]] + Product(lists[1..])[b]
  {
    PrependEachAt(lists[0], Product(lists[1..]), a, b);
  }

  lemma {:induction false} PrependEachMember(vs: seq<real>, tails: seq<seq<real>>, t: seq<real>)
    ensures t in PrependEach(vs, tails) <==> |t| > 0 && t[0] in vs && t[1..] in tails
  {
    if vs != [] {
      var n := |vs| - 1;
      PrependEachMember(vs[..n], tails, t);
      var c := Cons(vs[n], tails);
      if t in c {
        var k :| 0 <= k < |c| && c[k] == t;
        assert t[1..] == tails[k];
      }
      if |t| > 0 && t[0] == vs[n] && t[1..] in tails {
        var k :| 0 <= k < |tails| && tails[k] == t[1..];
        assert c[k] == t;
      }
      assert vs == vs[..n] + [vs[n]];
    }
  }

  /** A tuple is in the product exactly when it has one entry per list, taken from that list. */
  lemma {:induction false} ProductMembers(lists: seq<seq<real>>, t: seq<real>)
    ensures t in Product(lists) <==> |t| == |lists| && forall k :: 0 <= k < |t| ==> t[k] in lists[k]
  {
    if lists != [] {
      PrependEachMember(lists[0], Product(lists[1..]), t);
      if |t| > 0 {
        ProductMembers(lists[1..], t[1..]);
        if |t| == |lists| && forall k :: 0 <= k < |t| ==> t[k] in lists[k] {
          forall k | 0 <= k < |t[1..]| ensures t[1..][k] in lists[1..][k] {
            assert t[k + 1] in lists[k + 1];
          }
        }
        if t[0] in lists[0] && t[1..] in Product(lists[1..]) {
          forall k | 0 <= k < |t| ensures t[k] in lists[k] {
            if k > 0 { assert t[1..][k - 1] == t[k]; }
          }
        }
      }
    }
  }

  /** Every tuple of the product has one entry per list. */
  lemma ProductWidth(lists: seq<seq<real>>)
    ensures forall t :: t in Product(lists) ==> |t| == |lists|
  {
    forall t | t in Product(lists) ensures |t| == |lists| {
      ProductMembers(lists, t);
    }
  }

  lemma ConsPrefix(v: real, tails: seq<seq<real>>, j: nat)
    requires j < |tails|
    ensures Cons(v, tails[..j + 1]) == Cons(v, tails[..j]) + [[v] + tails[j]]
  {
  }

  /** cartesianProduct(index, lists), with its two nested loops, proved against Product. */
  method CartesianProduct(index: nat, lists: seq<seq<real>>) returns (result: seq<seq<real>>)
    requires index <= |lists|
    ensures result == Product(lists[index..])
    decreases |lists| - index
  {
    result := [];
    if index == |lists| {
      result := result + [[]];
    } else {
      var values := lists[index];
      assert lists[index..][1..] == lists[index + 1..];
      for i := 0 to |values|
        invariant result == PrependEach(values[..i], Product(lists[index + 1..]))
      {
        var value := values[i];
        var rest := CartesianProduct(index + 1, lists);
        assert values[..i + 1][..i] == values[..i];
        for j := 0 to |rest|
          invariant result == PrependEach(values[..i], rest) + Cons(value, rest[..j])
        {
          ConsPrefix(value, rest, j);
          result := result + [[value] + rest[j]];
        }
        assert rest[..|rest|] == rest;
      }
      assert values[..|values|] == values;
    }
  }

  // ---------------------------------------------------------------------------
  // LIST: generateListValueTuples

  const ListLengthMessage: string := "All variable value lists must have the same length for LIST values kind."

  predicate SameLengths(lists: seq<seq<real>>)
  {
    forall k :: 0 <= k < |lists| ==> |lists[k]| == |lists[0]|
  }

  /** Tuple i: the i-th value of each list. */
  function Column(lists: seq<seq<real>>, i: nat): (r: seq<real>)
    requires SameLengths(lists) && lists != [] && i < |lists[0]|
    ensures |r| == |lists| && forall k :: 0 <= k < |lists| ==> r[k] == lists[k][i]
  {
    seq(|lists|, k requires 0 <= k < |lists| => lists[k][i])
  }

  /**
   * The LIST tuples: get(0) fails on no lists; lists of different lengths raise the building
   * exception; otherwise tuple i holds the i-th value of each list.
   */
  function Zip(lists: seq<seq<real>>): (r: Result<seq<seq<real>>, Raised>)
    ensures lists == [] ==> r == Failure(RuntimeException(IndexOutOfBounds(0, 0)))
    ensures lists != [] ==> (r.Success? <==> SameLengths(lists))
    ensures lists != [] && r.Failure? ==> r.error == VariableValuesFunctionException(ListLengthMessage)
    ensures r.Success? ==>
      |r.value| == |lists[0]| && (forall i :: 0 <= i < |r.value| ==> r.value[i] == Column(lists, i))
  {
    if lists == [] then Failure(RuntimeException(IndexOutOfBounds(0, 0)))
    else if !SameLengths(lists) then Failure(VariableValuesFunctionException(ListLengthMessage))
    else Success(seq(|lists[0]|, i requires 0 <= i < |lists[0]| => Column(lists, i)))
  }

  /** Every LIST tuple is also one of the GRID tuples: the zip picks a value from each list. */
  lemma ZipWithinProduct(lists: seq<seq<real>>)
    requires Zip(lists).Success?
    ensures forall t :: t in Zip(lists).value ==> t in Product(lists)
  {
    forall t | t in Zip(lists).value ensures t in Product(lists) {
      ProductMembers(lists, t);
      var i :| 0 <= i < |Zip(lists).value| && Zip(lists).value[i] == t;
      forall k | 0 <= k < |t| ensures t[k] in lists[k] {
        assert t[k] == lists[k][i];
      }
    }
  }

  /** generateListValueTuples, with its length check and nested loops, proved against Zip. */
  method ListValueTuples(lists: seq<seq<real>>) returns (r: Result<seq<seq<real>>, Raised>)
    ensures r == Zip(lists)
  {
    if |lists| == 0 {
      return Failure(RuntimeException(IndexOutOfBounds(0, 0)));
    }
    var size := |lists[0]|;
    for k := 0 to |lists|
      invariant forall j :: 0 <= j < k ==> |lists[j]| == size
    {
      if |lists[k]| != size {
        return Failure(VariableValuesFunctionException(ListLengthMessage));
      }
    }
    var result: seq<seq<real>> := [];
    for i := 0 to size
      invariant |result| == i && forall a :: 0 <= a < i ==> result[a] == Column(lists, a)
    {
      var tuple: seq<real> := [];
      for k := 0 to |lists|
        invariant |tuple| == k && forall j :: 0 <= j < k ==> tuple[j] == lists[j][i]
      {
        tuple := tuple + [lists[k][i]];
      }
      result := result + [tuple];
    }
    assert SameLengths(lists);
    assert result == Zip(lists).value;
    return Success(result);
  }

  // ---------------------------------------------------------------------------
  // generateValueTuples and getVariableIndex

  /** The dispatch on the values kind; a null kind fails the switch. */
  function ValueTuples(f: VariableValuesFunction): (r: Result<seq<seq<real>>, Raised>)
    requires f.Valid()
    ensures f.valuesKind == None ==> r == Failure(RuntimeException(NullPointer))
    ensures f.valuesKind == Some(Grid) ==> r == Success(Product(f.Values()))
    ensures f.valuesKind == Some(List) ==> r == Zip(f.Values())
  {
    match f.valuesKind
    case None => Failure(RuntimeException(NullPointer))
    case Some(Grid) => Success(Product(f.Values()))
    case Some(List) => Zip(f.Values())
  }

  method GenerateValueTuples(f: VariableValuesFunction) returns (r: Result<seq<seq<real>>, Raised>)
    requires f.Valid()
    ensures r == ValueTuples(f)
  {
    match f.valuesKind {
      case None =>
        r := Failure(RuntimeException(NullPointer));
      case Some(Grid) =>
        var tuples := CartesianProduct(0, f.Values());
        assert f.Values()[0..] == f.Values();
        r := Success(tuples);
      case Some(List) =>
        r := ListValueTuples(f.Values());
    }
  }

  /** List.indexOf: the first position holding x. */
  function IndexOf(s: seq<string>, x: string): (r: Option<nat>)
    ensures r.Some? ==> r.value < |s| && s[r.value] == x && forall j :: 0 <= j < r.value ==> s[j] != x
    ensures r.None? ==> x !in s
  {
    if s == [] then None
    else if s[0] == x then Some(0)
    else match IndexOf(s[1..], x)
      case None => None
      case Some(k) => Some(k + 1)
  }

  /**
   * getVariableIndex: the name's position in the key order, or the "Invalid variable"
   * exception for a name that is not a key.
   */
  function VariableIndex(f: VariableValuesFunction, name: string): (r: Result<nat, Raised>)
    ensures r.Success? <==> name in f.keys
    ensures r.Success? ==> r.value < |f.keys| && f.keys[r.value] == name
    ensures r.Failure? ==> r.error == VariableValuesFunctionException("Invalid variable '" + name + "'")
  {
    match IndexOf(f.keys, name)
    case None => Failure(VariableValuesFunctionException("Invalid variable '" + name + "'"))
    case Some(k) => Success(k)
  }

  /**
   * The slot getVariableIndex gives a name holds one of that name's domain values in every
   * tuple, GRID or LIST: keySet and values list the names in the same order.
   */
  lemma SlotHoldsDomainValue(f: VariableValuesFunction, name: string, t: seq<real>)
    requires f.Valid() && ValueTuples(f).Success? && t in ValueTuples(f).value
    requires name in f.functionMap
    ensures var k := VariableIndex(f, name).value; k < |t| && t[k] in f.functionMap[name]
  {
    if f.valuesKind == Some(List) {
      ZipWithinProduct(f.Values());
    }
    ProductMembers(f.Values(), t);
  }
}
