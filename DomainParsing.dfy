/**
 * VariableValuesFunctionParser.parse: the variables part of a request, split on ',' into
 * entries and each entry on ':' into name, lower, step and upper. The two packages carry
 * the same parser with different messages; the dialect selects them.
 */
module DomainParsing {
  import opened Wrappers
  import opened JavaStrings
  import opened Kinds
  import opened Failures
  import opened ValueRanges
  import opened Platforms
  import opened VariableDomains

  datatype Dialect = ComProject | ItUnits {
    /** The parsing exception for an entry that does not have four parts. */
    function ArityMessage(): string
    {
      match this
      case ComProject =>
        "Invalid variable values function format. Required format for variable values: VarName\":\"JavaNum\":\"JavaNum\":\"JavaNum"
      case ItUnits =>
        "Invalid variable values function format. Required format for variable values: VarName:JavaNum:JavaNum:JavaNum"
    }

    /** The parsing exception that re-raises a VariableValues validation error with the entry. */
    function WrapMessage(entry: string, message: string): string
    {
      match this
      case ComProject => "Invalid variable values \" " + entry + " \" : " + message
      case ItUnits => "Invalid variable values '" + entry + "' : " + message
    }
  }

  /** One entry as parsed by the platform, the errors in the order the code meets them. */
  function ParseEntry(d: Dialect, p: Platform, entry: string): (r: Result<VariableValues, Raised>)
    ensures r.Success? ==> |JavaSplit(entry, ':')| == 4 && r.value.variable == JavaSplit(entry, ':')[0]
    ensures r.Success? ==> r.value.step > 0.0
  {
    var parts := JavaSplit(entry, ':');
    if |parts| != 4 then Failure(VariableValuesFunctionException(d.ArityMessage()))
    else
      match p.parseDouble(parts[1])
      case Failure(m) => Failure(RuntimeException(NumberFormat(m)))
      case Success(lower) =>
        match p.parseDouble(parts[2])
        case Failure(m) => Failure(RuntimeException(NumberFormat(m)))
        case Success(step) =>
          match p.parseDouble(parts[3])
          case Failure(m) => Failure(RuntimeException(NumberFormat(m)))
          case Success(upper) =>
            match NewVariableValues(parts[0], lower, step, upper)
            case Failure(e) => Failure(VariableValuesFunctionException(d.WrapMessage(entry, e.message)))
            case Success(v) => Success(v)
  }

  /**
   * An entry parses exactly when it has four ':'-parts, the last three parse as doubles and
   * the step is positive; the parts are taken as name, lower, step and upper. A validation
   * error is re-raised with the entry's text.
   */
  lemma ParseEntryContract(d: Dialect, p: Platform, entry: string)
    ensures var r := ParseEntry(d, p, entry); var parts := JavaSplit(entry, ':');
      (|parts| != 4 ==> r == Failure(VariableValuesFunctionException(d.ArityMessage()))) &&
      (r.Success? <==>
        |parts| == 4 && p.parseDouble(parts[1]).Success? && p.parseDouble(parts[2]).Success? &&
        p.parseDouble(parts[3]).Success? && p.parseDouble(parts[2]).value > 0.0) &&
      (r.Success? ==>
        r.value == VariableValues(parts[0], p.parseDouble(parts[1]).value, p.parseDouble(parts[2]).value,
                                  p.parseDouble(parts[3]).value)) &&
      (|parts| == 4 && p.parseDouble(parts[1]).Success? && p.parseDouble(parts[2]).Success? &&
       p.parseDouble(parts[3]).Success? && p.parseDouble(parts[2]).value <= 0.0 ==>
        r == Failure(VariableValuesFunctionException(d.WrapMessage(entry, StepMessage))))
  {
  }

  /** The loop over the entries with a per-entry parse: the entries in input order, or the first error. */
  function ParseAll<T>(parse: string -> Result<T, Raised>, entries: seq<string>): Result<seq<T>, Raised>
  {
    if entries == [] then Success([])
    else
      match ParseAll(parse, entries[..|entries| - 1])
      case Failure(e) => Failure(e)
      case Success(list) =>
        match parse(entries[|entries| - 1])
        case Failure(e) => Failure(e)
        case Success(v) => Success(list + [v])
  }

  /** On success the list holds each entry's parse at the entry's own position. */
  lemma {:induction false} ParseAllInOrder<T>(parse: string -> Result<T, Raised>, entries: seq<string>)
    requires ParseAll(parse, entries).Success?
    ensures var list := ParseAll(parse, entries).value;
      |list| == |entries| && forall k :: 0 <= k < |entries| ==> parse(entries[k]) == Success(list[k])
  {
    if entries != [] {
      var prefix := entries[..|entries| - 1];
      ParseAllInOrder(parse, prefix);
      assert forall k :: 0 <= k < |prefix| ==> prefix[k] == entries[k];
    }
  }

  /** Entry k fails with the error the whole loop reports, and every entry before it parses. */
  predicate FirstFailing<T>(parse: string -> Result<T, Raised>, entries: seq<string>, k: nat)
    requires k < |entries|
  {
    ParseAll(parse, entries).Failure? &&
    parse(entries[k]) == Failure(ParseAll(parse, entries).error) &&
    forall j :: 0 <= j < k ==> parse(entries[j]).Success?
  }

  /** A failure is the error of the first entry that fails: all entries before it parse. */
  lemma {:induction false} ParseAllFirstError<T>(parse: string -> Result<T, Raised>, entries: seq<string>)
    requires ParseAll(parse, entries).Failure?
    ensures exists k :: 0 <= k < |entries| && FirstFailing(parse, entries, k)
  {
    var prefix := entries[..|entries| - 1];
    assert forall k :: 0 <= k < |prefix| ==> prefix[k] == entries[k];
    if ParseAll(parse, prefix).Failure? {
      ParseAllFirstError(parse, prefix);
      var k :| 0 <= k < |prefix| && FirstFailing(parse, prefix, k);
      assert FirstFailing(parse, entries, k);
    } else {
      ParseAllInOrder(parse, prefix);
      assert FirstFailing(parse, entries, |entries| - 1);
    }
  }

  /** An entry that fails ends the loop with its error, whatever follows it. */
  lemma {:induction false} ParseAllStop<T>(parse: string -> Result<T, Raised>, entries: seq<string>, i: nat)
    requires i < |entries| && ParseAll(parse, entries[..i]).Success?
    requires parse(entries[i]).Failure?
    ensures ParseAll(parse, entries) == Failure(parse(entries[i]).error)
  {
    assert entries[..i + 1][..i] == entries[..i];
    ParseAllFailureSticks(parse, entries, i + 1);
  }

  /** Once a prefix fails, every longer prefix fails with the same error. */
  lemma {:induction false} ParseAllFailureSticks<T>(parse: string -> Result<T, Raised>, entries: seq<string>, n: nat)
    requires 0 < n <= |entries| && ParseAll(parse, entries[..n]).Failure?
    ensures ParseAll(parse, entries) == ParseAll(parse, entries[..n])
    decreases |entries| - n
  {
    if n == |entries| {
      assert entries[..n] == entries;
    } else {
      assert entries[..n + 1][..n] == entries[..n];
      ParseAllFailureSticks(parse, entries, n + 1);
    }
  }

  /** The loop body's parse of one entry, in the given dialect and on the given platform. */
  function EntryParser(d: Dialect, p: Platform): string -> Result<VariableValues, Raised>
  {
    entry => ParseEntry(d, p, entry)
  }

  /**
   * parse: the entries, then the VariableValuesFunction constructor over them; a domain loop
   * that never ends is reported as such.
   */
  function ParseFunction(d: Dialect, p: Platform, text: string, valuesKind: Option<ValuesKind>,
                         computationKind: Option<ComputationKind>): (r: Result<VariableValuesFunction, Raised>)
    ensures r.Success? ==> r.value.Valid()
    ensures r.Success? ==> r.value.valuesKind == valuesKind && r.value.computationKind == computationKind
  {
    match ParseAll(EntryParser(d, p), JavaSplit(text, ','))
    case Failure(e) => Failure(e)
    case Success(list) =>
      if AllLoopsEnd(list) then Success(Build(list, valuesKind, computationKind, p.hashOrder))
      else Failure(NonTermination)
  }

  /** The loop over the entries, for any per-entry parse, proved against ParseAll. */
  method ParseEach<T>(parse: string -> Result<T, Raised>, strings: seq<string>)
    returns (r: Result<seq<T>, Raised>)
    ensures r == ParseAll(parse, strings)
  {
    var list: seq<T> := [];
    for i := 0 to |strings|
      invariant ParseAll(parse, strings[..i]) == Success(list)
    {
      assert strings[..i + 1][..i] == strings[..i];
      var v := parse(strings[i]);
      if v.Failure? {
        ParseAllStop(parse, strings, i);
        return Failure(v.error);
      }
      list := list + [v.value];
    }
    assert strings[..|strings|] == strings;
    return Success(list);
  }

  /** parse, proved against ParseFunction. */
  method Parse(d: Dialect, p: Platform, text: string, valuesKind: Option<ValuesKind>,
               computationKind: Option<ComputationKind>) returns (r: Result<VariableValuesFunction, Raised>)
    ensures r == ParseFunction(d, p, text, valuesKind, computationKind)
  {
    var list := ParseEach(EntryParser(d, p), JavaSplit(text, ','));
    if list.Failure? {
      return Failure(list.error);
    }
    if !AllLoopsEnd(list.value) {
      return Failure(NonTermination);
    }
    var f := NewVariableValuesFunction(list.value, valuesKind, computationKind, p.hashOrder);
    return Success(f);
  }
}
