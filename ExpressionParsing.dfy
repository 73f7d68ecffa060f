/**
 * The recursive-descent expression parser: token scanners, the parse of one
 * subexpression at a cursor (as a function of the text and the cursor), and the
 * parser object whose `parse` advances its cursor field step by step.
 */
module ExpressionParsing {
  import opened Wrappers
  import opened JavaStrings
  import opened Numbers
  import opened Expressions

  // ---------------------------------------------------------------------------
  // Tokens

  datatype TokenType = ConstantToken | VariableToken | OperatorToken | OpenBracket | ClosedBracket

  datatype Token = Token(start: nat, end: nat)

  predicate IsNameChar(c: char)
  {
    IsLowerLetter(c) || IsDigit(c)
  }

  /** The end of the run of digits that starts at a. */
  function DigitEnd(s: string, a: nat): (r: nat)
    requires a <= |s|
    ensures a <= r <= |s|
    ensures r < |s| ==> !IsDigit(s[r])
    decreases |s| - a
  {
    if a == |s| || !IsDigit(s[a]) then a else DigitEnd(s, a + 1)
  }

  lemma {:induction false} DigitEndRun(s: string, a: nat)
    requires a <= |s|
    ensures forall p :: a <= p < DigitEnd(s, a) ==> IsDigit(s[p])
    decreases |s| - a
  {
    if a < |s| && IsDigit(s[a]) {
      DigitEndRun(s, a + 1);
    }
  }

  /** The end of the run of [a-z0-9] characters that starts at a. */
  function NameEnd(s: string, a: nat): (r: nat)
    requires a <= |s|
    ensures a <= r <= |s|
    ensures r < |s| ==> !IsNameChar(s[r])
    decreases |s| - a
  {
    if a == |s| || !IsNameChar(s[a]) then a else NameEnd(s, a + 1)
  }

  lemma {:induction false} NameEndRun(s: string, a: nat)
    requires a <= |s|
    ensures forall p :: a <= p < NameEnd(s, a) ==> IsNameChar(s[p])
    decreases |s| - a
  {
    if a < |s| && IsNameChar(s[a]) {
      NameEndRun(s, a + 1);
    }
  }

  /** The text a token type's regular expression matches as a whole. */
  predicate IsTokenText(tt: TokenType, t: string)
  {
    match tt
    case ConstantToken => IsConstantLiteral(t)
    case VariableToken => IsVariableName(t)
    case OperatorToken => |t| == 1 && IsOperatorChar(t[0])
    case OpenBracket => t == "("
    case ClosedBracket => t == ")"
  }

  /**
   * The end of the match the token's (greedy) regular expression makes when it starts
   * exactly at i, if it can start there.
   */
  function MatchAt(tt: TokenType, s: string, i: nat): (r: Option<nat>)
    ensures r.Some? ==> i < r.value <= |s|
  {
    if i >= |s| then None
    else
      match tt
      case ConstantToken =>
        var k := DigitEnd(s, i);
        if k == i then None
        else if k + 1 < |s| && s[k] == '.' && IsDigit(s[k + 1]) then Some(DigitEnd(s, k + 1))
        else Some(k)
      case VariableToken =>
        if IsLowerLetter(s[i]) then Some(NameEnd(s, i + 1)) else None
      case OperatorToken =>
        if IsOperatorChar(s[i]) then Some(i + 1) else None
      case OpenBracket =>
        if s[i] == '(' then Some(i + 1) else None
      case ClosedBracket =>
        if s[i] == ')' then Some(i + 1) else None
  }

  /** TokenType.next: Matcher.find(i), the leftmost match that starts at i or later. */
  function Next(tt: TokenType, s: string, i: nat): (r: Option<Token>)
    ensures r.Some? ==> i <= r.value.start && MatchAt(tt, s, r.value.start) == Some(r.value.end)
    decreases |s| - i
  {
    if i >= |s| then None
    else if MatchAt(tt, s, i).Some? then Some(Token(i, MatchAt(tt, s, i).value))
    else Next(tt, s, i + 1)
  }

  /** find never skips a match: no match starts between the search start and the token found. */
  lemma {:induction false} NextIsLeftmost(tt: TokenType, s: string, i: nat)
    ensures var r := Next(tt, s, i);
      forall p :: i <= p && (r.None? || p < r.value.start) ==> MatchAt(tt, s, p).None?
    decreases |s| - i
  {
    if i < |s| && MatchAt(tt, s, i).None? {
      NextIsLeftmost(tt, s, i + 1);
    }
  }

  /** Checking that the found token starts at the cursor is matching anchored at the cursor. */
  lemma NextAtCursor(tt: TokenType, s: string, i: nat)
    ensures (Next(tt, s, i).Some? && Next(tt, s, i).value.start == i) <==> MatchAt(tt, s, i).Some?
    ensures MatchAt(tt, s, i).Some? ==> Next(tt, s, i).value.end == MatchAt(tt, s, i).value
  {
  }

  lemma {:induction false} DigitRunOfSlice(s: string, i: nat, j: nat)
    requires i <= j <= |s|
    ensures DigitRun(s[i..j]) == (if DigitEnd(s, i) < j then DigitEnd(s, i) else j) - i
    decreases j - i
  {
    var u := s[i..j];
    if i < j {
      assert u[0] == s[i];
      if IsDigit(s[i]) {
        assert u[1..] == s[i + 1..j];
        DigitRunOfSlice(s, i + 1, j);
      }
    }
  }

  lemma AllDigitsOfSlice(s: string, a: nat, j: nat)
    requires a <= j <= |s|
    ensures AllDigits(s[a..j]) <==> DigitEnd(s, a) >= j
  {
    var e := DigitEnd(s, a);
    DigitEndRun(s, a);
    if e < j {
      assert s[a..j][e - a] == s[e];
    } else {
      assert forall k :: 0 <= k < j - a ==> s[a..j][k] == s[a + k];
    }
  }

  /** A number token inside a text, in terms of the digit runs of the text. */
  lemma ConstantInText(s: string, i: nat, j: nat)
    requires i < j <= |s|
    ensures var e := DigitEnd(s, i);
      IsConstantLiteral(s[i..j]) <==>
        e > i && (j <= e || (s[e] == '.' && e + 1 < j && DigitEnd(s, e + 1) >= j))
  {
    var u := s[i..j];
    var e := DigitEnd(s, i);
    DigitRunOfSlice(s, i, j);
    if e < j {
      assert u[e - i] == s[e];
      if e + 1 < j {
        assert u[e - i + 1..] == s[e + 1..j];
        AllDigitsOfSlice(s, e + 1, j);
      }
    }
  }

  /** A variable token inside a text, in terms of the name runs of the text. */
  lemma VariableInText(s: string, i: nat, j: nat)
    requires i < j <= |s|
    ensures IsVariableName(s[i..j]) <==> IsLowerLetter(s[i]) && NameEnd(s, i + 1) >= j
  {
    var u := s[i..j];
    var e := NameEnd(s, i + 1);
    NameEndRun(s, i + 1);
    assert u[0] == s[i];
    if e < j {
      assert u[e - i] == s[e];
    } else {
      assert forall k :: 1 <= k < |u| ==> u[k] == s[i + k];
    }
  }

  /**
   * Maximal munch: the scanner's match is a whole token, and no longer text starting at
   * the same place is one; when the scanner finds nothing, no text there is a token.
   */
  lemma MatchIsLongest(tt: TokenType, s: string, i: nat)
    ensures MatchAt(tt, s, i).Some? ==>
      IsTokenText(tt, s[i..MatchAt(tt, s, i).value]) &&
      forall j :: MatchAt(tt, s, i).value < j <= |s| ==> !IsTokenText(tt, s[i..j])
    ensures MatchAt(tt, s, i).None? ==> forall j :: i < j <= |s| ==> !IsTokenText(tt, s[i..j])
  {
    if i < |s| {
      match tt
      case ConstantToken =>
        var e := DigitEnd(s, i);
        forall j | i < j <= |s|
          ensures IsConstantLiteral(s[i..j]) <==>
            e > i && (j <= e || (s[e] == '.' && e + 1 < j && DigitEnd(s, e + 1) >= j))
        {
          ConstantInText(s, i, j);
        }
      case VariableToken =>
        forall j | i < j <= |s|
          ensures IsVariableName(s[i..j]) <==> IsLowerLetter(s[i]) && NameEnd(s, i + 1) >= j
        {
          VariableInText(s, i, j);
        }
      case _ =>
    }
  }

  /** A number token contains nothing but digits and one point. */
  lemma ConstantChars(s: string, i: nat, j: nat)
    requires i < j <= |s| && IsConstantLiteral(s[i..j])
    ensures forall p :: i <= p < j ==> IsDigit(s[p]) || s[p] == '.'
  {
    ConstantInText(s, i, j);
    var e := DigitEnd(s, i);
    DigitEndRun(s, i);
    if e < j {
      DigitEndRun(s, e + 1);
    }
  }

  // ---------------------------------------------------------------------------
  // Errors

  datatype ParseError =
    | UnexpectedEnd
    | UnexpectedChar(pos: nat, found: char)
    | ExpectedOperator(pos: nat, found: char)
    | ExpectedClosedBracket(pos: nat, found: char)
    | UnknownOperator(pos: nat, symbol: string)
  {
    /** The ExpressionParsingException message. */
    function Message(): string
    {
      match this
      case UnexpectedEnd => "Unexpected end of expression."
      case UnexpectedChar(p, c) => "Unexpected char at " + NatToString(p) + ": '" + [c] + "'"
      case ExpectedOperator(p, c) =>
        "Unexpected char at " + NatToString(p) + " instead of operator: '" + [c] + "'"
      case ExpectedClosedBracket(p, c) =>
        "Unexpected char at " + NatToString(p) + " instead of closed bracket: '" + [c] + "'"
      case UnknownOperator(p, t) => "Unknown operator at " + NatToString(p) + ": '" + t + "'"
    }
  }

  /** What a call of parse returns or throws, and where it leaves the cursor. */
  datatype ParseOutcome = Outcome(result: Result<Node, ParseError>, cursor: nat)

  // ---------------------------------------------------------------------------
  // The parse of one subexpression

  /**
   * parse() called with the cursor at i on the space-stripped text s: constant, then
   * variable, then bracket form, each only when its token starts exactly at the cursor.
   * The cursor never moves back, never passes the end, and moves on at every success.
   */
  function ParseAt(s: string, i: nat): (o: ParseOutcome)
    requires i <= |s|
    ensures i <= o.cursor <= |s|
    ensures o.result.Success? ==> i < o.cursor
    decreases |s| - i, 0
  {
    if i == |s| then Outcome(Failure(UnexpectedEnd), i)
    else if MatchAt(ConstantToken, s, i).Some? then
      var e := MatchAt(ConstantToken, s, i).value;
      Outcome(Success(Constant(s[i..e])), e)
    else if MatchAt(VariableToken, s, i).Some? then
      var e := MatchAt(VariableToken, s, i).value;
      Outcome(Success(Variable(s[i..e])), e)
    else if MatchAt(OpenBracket, s, i).Some? then BracketForm(s, i + 1)
    else Outcome(Failure(UnexpectedChar(i, s[i])), i)
  }

  /** The rest of a bracket form once its '(' is consumed and the cursor is at j. */
  function BracketForm(s: string, j: nat): (o: ParseOutcome)
    requires 0 < j <= |s|
    ensures j <= o.cursor <= |s|
    ensures o.result.Success? ==> j < o.cursor
    decreases |s| - j, 1
  {
    var o1 := ParseAt(s, j);
    if o1.result.Failure? then o1
    else
      var c1 := o1.cursor;
      if c1 == |s| then Outcome(Failure(UnexpectedEnd), c1)
      else if MatchAt(OperatorToken, s, c1).None? then Outcome(Failure(ExpectedOperator(c1, s[c1])), c1)
      else
        var o2 := ParseAt(s, c1 + 1);
        if o2.result.Failure? then o2
        else CloseForm(s, o1.result.value, c1, o2.result.value, o2.cursor)
  }

  /** The closing bracket and the operator lookup, with both operands parsed. */
  function CloseForm(s: string, left: Node, c1: nat, right: Node, c2: nat): (o: ParseOutcome)
    requires c1 < c2 <= |s|
    ensures c2 <= o.cursor <= |s|
    ensures o.result.Success? ==> c2 < o.cursor
  {
    if c2 == |s| then Outcome(Failure(UnexpectedEnd), c2)
    else if MatchAt(ClosedBracket, s, c2).None? then Outcome(Failure(ExpectedClosedBracket(c2, s[c2])), c2)
    else
      match OperatorOf(s[c1..c1 + 1])
      case None => Outcome(Failure(UnknownOperator(c1, s[c1..c1 + 1])), c2 + 1)
      case Some(op) => Outcome(Success(Operator(op, left, right)), c2 + 1)
  }

  /** How a bracket form ends when a step before the closing bracket fails. */
  lemma BracketFormSteps(s: string, j: nat)
    requires 0 < j <= |s|
    ensures var o1 := ParseAt(s, j);
      (o1.result.Failure? ==> BracketForm(s, j) == o1) &&
      (o1.result.Success? && o1.cursor == |s| ==> BracketForm(s, j) == Outcome(Failure(UnexpectedEnd), |s|)) &&
      (o1.result.Success? && o1.cursor < |s| && MatchAt(OperatorToken, s, o1.cursor).None? ==>
         BracketForm(s, j) == Outcome(Failure(ExpectedOperator(o1.cursor, s[o1.cursor])), o1.cursor)) &&
      (o1.result.Success? && o1.cursor < |s| && MatchAt(OperatorToken, s, o1.cursor).Some? &&
         ParseAt(s, o1.cursor + 1).result.Failure? ==>
         BracketForm(s, j) == ParseAt(s, o1.cursor + 1))
  {
  }

  /** A bracket form whose two operands parse goes on to close at the second cursor. */
  lemma BracketFormCloses(s: string, j: nat, left: Node, c1: nat, right: Node, c2: nat)
    requires 0 < j <= |s|
    requires ParseAt(s, j) == Outcome(Success(left), c1)
    requires c1 < |s| && MatchAt(OperatorToken, s, c1).Some?
    requires ParseAt(s, c1 + 1) == Outcome(Success(right), c2)
    ensures BracketForm(s, j) == CloseForm(s, left, c1, right, c2)
  {
  }

  lemma CloseFormSucceeds(s: string, left: Node, c1: nat, right: Node, c2: nat, op: Op)
    requires c1 < c2 < |s| && s[c2] == ')' && s[c1..c1 + 1] == [op.Symbol()]
    ensures CloseForm(s, left, c1, right, c2) == Outcome(Success(Operator(op, left, right)), c2 + 1)
  {
    OperatorOfSymbol(op);
  }

  // ---------------------------------------------------------------------------
  // The parser object

  /** The loop over the operator types that takes the first whose symbol is the string. */
  method FindOperator(operatorString: string) returns (operatorType: Option<Op>)
    ensures operatorType == OperatorOf(operatorString)
  {
    for i := 0 to |Ops|
      invariant forall j :: 0 <= j < i ==> operatorString != [Ops[j].Symbol()]
    {
      if operatorString == [Ops[i].Symbol()] {
        OperatorOfSymbol(Ops[i]);
        return Some(Ops[i]);
      }
    }
    NoSymbolNoOperator(operatorString);
    return None;
  }

  class ExpressionParser {
    const text: string
    var cursor: nat

    ghost predicate Valid()
      reads this
    {
      cursor <= |text|
    }

    /** Only the space character is removed; tabs and other white space stay in the text. */
    constructor(s: string)
      ensures text == StripSpaces(s) && cursor == 0
      ensures Valid()
    {
      text := StripSpaces(s);
      cursor := 0;
    }

    predicate IsValidExpression()
      reads this
    {
      cursor == |text|
    }

    /** Parses one subexpression at the cursor, exactly as ParseAt describes. */
    method Parse() returns (node: Result<Node, ParseError>)
      requires Valid()
      modifies this
      ensures Valid()
      ensures ParseAt(text, old(cursor)) == Outcome(node, cursor)
      decreases |text| - cursor, 0
    {
      if cursor >= |text| {
        return Failure(UnexpectedEnd);
      }
      var token := Next(ConstantToken, text, cursor);
      NextAtCursor(ConstantToken, text, cursor);
      if token.Some? && token.value.start == cursor {
        cursor := token.value.end;
        return Success(Constant(text[token.value.start..token.value.end]));
      }
      token := Next(VariableToken, text, cursor);
      NextAtCursor(VariableToken, text, cursor);
      if token.Some? && token.value.start == cursor {
        cursor := token.value.end;
        return Success(Variable(text[token.value.start..token.value.end]));
      }
      token := Next(OpenBracket, text, cursor);
      NextAtCursor(OpenBracket, text, cursor);
      if token.Some? && token.value.start == cursor {
        cursor := token.value.end;
        node := ParseBracketForm();
        return;
      }
      return Failure(UnexpectedChar(cursor, text[cursor]));
    }

    /** The bracket branch of parse, entered with the cursor just past '('. */
    method ParseBracketForm() returns (node: Result<Node, ParseError>)
      requires 0 < cursor <= |text|
      modifies this
      ensures Valid()
      ensures BracketForm(text, old(cursor)) == Outcome(node, cursor)
      decreases |text| - cursor, 1
    {
      ghost var j := cursor;
      BracketFormSteps(text, j);
      var child1 := Parse();
      if child1.Failure? {
        return child1;
      }
      if cursor >= |text| {
        return Failure(UnexpectedEnd);
      }
      ghost var c1 := cursor;
      var operatorToken := Next(OperatorToken, text, cursor);
      NextAtCursor(OperatorToken, text, cursor);
      if operatorToken.Some? && operatorToken.value.start == cursor {
        cursor := operatorToken.value.end;
      } else {
        return Failure(ExpectedOperator(cursor, text[cursor]));
      }
      assert MatchAt(OperatorToken, text, c1) == Some(cursor);
      var child2 := Parse();
      if child2.Failure? {
        return child2;
      }
      BracketFormCloses(text, j, child1.value, c1, child2.value, cursor);
      node := CloseBracketForm(child1.value, operatorToken.value, child2.value);
    }

    /** The closing bracket and the operator lookup, with both operands parsed. */
    method CloseBracketForm(left: Node, operatorToken: Token, right: Node) returns (node: Result<Node, ParseError>)
      requires operatorToken.start < cursor <= |text|
      requires MatchAt(OperatorToken, text, operatorToken.start) == Some(operatorToken.end)
      modifies this
      ensures Valid()
      ensures CloseForm(text, left, operatorToken.start, right, old(cursor)) == Outcome(node, cursor)
    {
      if cursor >= |text| {
        return Failure(UnexpectedEnd);
      }
      var closedBracketToken := Next(ClosedBracket, text, cursor);
      NextAtCursor(ClosedBracket, text, cursor);
      if closedBracketToken.Some? && closedBracketToken.value.start == cursor {
        cursor := closedBracketToken.value.end;
      } else {
        return Failure(ExpectedClosedBracket(cursor, text[cursor]));
      }
      var operatorString := text[operatorToken.start..operatorToken.end];
      var operatorType := FindOperator(operatorString);
      if operatorType.None? {
        return Failure(UnknownOperator(operatorToken.start, operatorString));
      }
      return Success(Operator(operatorType.value, left, right));
    }
  }

  // ---------------------------------------------------------------------------
  // Properties of the parse

  /** Where an error is reported: at the cursor, naming the character found there. */
  predicate ReportsCursor(s: string, o: ParseOutcome)
  {
    o.result.Failure? ==>
      match o.result.error
      case UnexpectedEnd => o.cursor == |s|
      case UnexpectedChar(p, c) => p == o.cursor < |s| && s[p] == c
      case ExpectedOperator(p, c) => p == o.cursor < |s| && s[p] == c
      case ExpectedClosedBracket(p, c) => p == o.cursor < |s| && s[p] == c
      case UnknownOperator(_, _) => false
  }

  /**
   * Every error is reported where the cursor stopped: "end of expression" only at the end of
   * the text; a bad character at the cursor offset, naming the character found there. The
   * unknown-operator error cannot happen, since the operator token only accepts the five symbols.
   */
  lemma {:induction false} ErrorsReportCursor(s: string, i: nat)
    requires i <= |s|
    ensures ReportsCursor(s, ParseAt(s, i))
    decreases |s| - i
  {
    if i < |s| && MatchAt(ConstantToken, s, i).None? && MatchAt(VariableToken, s, i).None? &&
       MatchAt(OpenBracket, s, i).Some? {
      ErrorsReportCursor(s, i + 1);
      var o1 := ParseAt(s, i + 1);
      if o1.result.Success? && o1.cursor < |s| && MatchAt(OperatorToken, s, o1.cursor).Some? {
        ErrorsReportCursor(s, o1.cursor + 1);
        var c1 := o1.cursor;
        assert |s[c1..c1 + 1]| == 1 && s[c1..c1 + 1][0] == s[c1];
      }
    }
  }

  /** A character that can follow a subexpression inside a bracket form. */
  predicate IsDelimiter(c: char)
  {
    IsOperatorChar(c) || c == ')'
  }

  lemma ConstantTokenInText(s: string, i: nat, e: nat)
    requires i < e <= |s| && IsConstantLiteral(s[i..e])
    requires e == |s| || IsDelimiter(s[e])
    ensures MatchAt(ConstantToken, s, i) == Some(e)
  {
    MatchIsLongest(ConstantToken, s, i);
    var m := MatchAt(ConstantToken, s, i).value;
    if m > e {
      ConstantChars(s, i, m);
    }
  }

  lemma VariableTokenInText(s: string, i: nat, e: nat)
    requires i < e <= |s| && IsVariableName(s[i..e])
    requires e == |s| || IsDelimiter(s[e])
    ensures MatchAt(VariableToken, s, i) == Some(e)
  {
    VariableInText(s, i, e);
    NameEndRun(s, i + 1);
    assert s[i] == s[i..e][0];
  }

  /** What may follow a printed subexpression for the parse to stop right after it. */
  predicate CanFollow(n: Node, s: string, e: nat)
    requires e <= |s|
  {
    n.Operator? || e == |s| || IsDelimiter(s[e])
  }

  /**
   * Printing a well-formed tree into the text at i and parsing there gives the tree back
   * and leaves the cursor just past it; a leaf must be followed by a delimiter or the end.
   */
  lemma {:induction false} PrintThenParse(n: Node, s: string, i: nat)
    requires WellFormed(n)
    requires i + |Print(n)| <= |s| && s[i..i + |Print(n)|] == Print(n)
    requires CanFollow(n, s, i + |Print(n)|)
    ensures ParseAt(s, i) == Outcome(Success(n), i + |Print(n)|)
    decreases n, 2
  {
    match n
    case Constant(t) =>
      ConstantThenParse(t, s, i);
    case Variable(x) =>
      VariableThenParse(x, s, i);
    case Operator(op, l, r) =>
      PrintedParts(op, l, r, s, i);
      BracketThenParse(op, l, r, s, i, i + 1 + |Print(l)|, i + 2 + |Print(l)| + |Print(r)|);
  }

  /**
   * A bracket form whose operands are printed trees, at i + 1 and c1 + 1, parses back to
   * the operator node over them, the cursor just past its ')'.
   */
  lemma {:induction false} BracketThenParse(op: Op, l: Node, r: Node, s: string, i: nat, c1: nat, c2: nat)
    requires WellFormed(l) && WellFormed(r)
    requires c1 == i + 1 + |Print(l)| && c2 == c1 + 1 + |Print(r)| && c2 < |s|
    requires s[i] == '(' && s[i + 1..c1] == Print(l) && s[c1] == op.Symbol() && s[c1 + 1..c2] == Print(r) && s[c2] == ')'
    ensures ParseAt(s, i) == Outcome(Success(Operator(op, l, r)), c2 + 1)
    decreases Operator(op, l, r), 1
  {
    OperandParses(l, s, i + 1, c1);
    OperandParses(r, s, c1 + 1, c2);
    assert s[c1..c1 + 1] == [op.Symbol()];
    BracketParses(s, i, l, c1, r, c2, op);
  }

  lemma ConstantThenParse(t: string, s: string, i: nat)
    requires IsConstantLiteral(t)
    requires i + |t| <= |s| && s[i..i + |t|] == t
    requires i + |t| == |s| || IsDelimiter(s[i + |t|])
    ensures ParseAt(s, i) == Outcome(Success(Constant(t)), i + |t|)
  {
    ConstantTokenInText(s, i, i + |t|);
  }

  lemma VariableThenParse(x: string, s: string, i: nat)
    requires IsVariableName(x)
    requires i + |x| <= |s| && s[i..i + |x|] == x
    requires i + |x| == |s| || IsDelimiter(s[i + |x|])
    ensures ParseAt(s, i) == Outcome(Success(Variable(x)), i + |x|)
  {
    assert s[i] == x[0];
    VariableTokenInText(s, i, i + |x|);
  }

  /** A printed operand followed by a delimiter parses back in place. */
  lemma {:induction false} OperandParses(n: Node, s: string, j: nat, e: nat)
    requires WellFormed(n) && e == j + |Print(n)| && e < |s| && s[j..e] == Print(n) && IsDelimiter(s[e])
    ensures ParseAt(s, j) == Outcome(Success(n), e)
    decreases n, 3
  {
    PrintThenParse(n, s, j);
  }

  /** A bracket form whose parts all parse parses to the operator node over them. */
  lemma BracketParses(s: string, i: nat, left: Node, c1: nat, right: Node, c2: nat, op: Op)
    requires i < |s| && s[i] == '('
    requires ParseAt(s, i + 1) == Outcome(Success(left), c1)
    requires c1 < |s| && s[c1..c1 + 1] == [op.Symbol()]
    requires ParseAt(s, c1 + 1) == Outcome(Success(right), c2)
    requires c2 < |s| && s[c2] == ')'
    ensures ParseAt(s, i) == Outcome(Success(Operator(op, left, right)), c2 + 1)
  {
    assert DigitEnd(s, i) == i;
    assert ParseAt(s, i) == BracketForm(s, i + 1);
    assert s[c1] == s[c1..c1 + 1][0];
    BracketFormCloses(s, i + 1, left, c1, right, c2);
    CloseFormSucceeds(s, left, c1, right, c2, op);
  }

  /** Where the pieces of a printed bracket form lie in the text. */
  lemma PrintedParts(op: Op, l: Node, r: Node, s: string, i: nat)
    requires var p := Print(Operator(op, l, r)); i + |p| <= |s| && s[i..i + |p|] == p
    ensures var c1 := i + 1 + |Print(l)|; var c2 := c1 + 1 + |Print(r)|;
      c2 < |s| && s[i] == '(' && s[i + 1..c1] == Print(l) && s[c1] == op.Symbol() &&
      s[c1..c1 + 1] == [op.Symbol()] && s[c1 + 1..c2] == Print(r) && s[c2] == ')'
  {
    BracketedParts(s, i, Print(l), op.Symbol(), Print(r));
  }

  /** Where the pieces of a bracketed text lie once it is found in the text at i. */
  lemma BracketedParts(s: string, i: nat, pl: string, c: char, pr: string)
    requires var t := "(" + pl + [c] + pr + ")"; i + |t| <= |s| && s[i..i + |t|] == t
    ensures var c1 := i + 1 + |pl|; var c2 := c1 + 1 + |pr|;
      c2 < |s| && s[i] == '(' && s[i + 1..c1] == pl && s[c1] == c &&
      s[c1..c1 + 1] == [c] && s[c1 + 1..c2] == pr && s[c2] == ')'
  {
    var c1 := i + 1 + |pl|;
    var n := 3 + |pl| + |pr|;
    var t := s[i..i + n];
    BracketPieces(t, pl, c, pr);
    assert s[i] == t[0] && s[c1] == t[1 + |pl|] && s[c1 + 1 + |pr|] == t[2 + |pl| + |pr|];
    SliceOfSlice(s, i, i + n, 1, 1 + |pl|);
    SliceOfSlice(s, i, i + n, 2 + |pl|, 2 + |pl| + |pr|);
    assert s[c1..c1 + 1] == [s[c1]];
  }

  /** The pieces of a bracketed text, by position. */
  lemma BracketPieces(t: string, pl: string, c: char, pr: string)
    requires t == "(" + pl + [c] + pr + ")"
    ensures |t| == 3 + |pl| + |pr| && t[0] == '(' && t[1..1 + |pl|] == pl && t[1 + |pl|] == c
    ensures t[2 + |pl|..2 + |pl| + |pr|] == pr && t[2 + |pl| + |pr|] == ')'
  {
    assert t[1..1 + |pl|] == ("(" + pl)[1..];
    assert t[2 + |pl|..2 + |pl| + |pr|] == ("(" + pl + [c] + pr)[2 + |pl|..];
  }

  lemma SliceOfSlice(s: string, i: nat, j: nat, a: nat, b: nat)
    requires i <= j <= |s| && a <= b <= j - i
    ensures s[i..j][a..b] == s[i + a..i + b]
  {
    var x, y := s[i..j][a..b], s[i + a..i + b];
    assert |x| == |y|;
    forall k | 0 <= k < |x|
      ensures x[k] == y[k]
    {
      assert x[k] == s[i..j][a + k] == s[i + a + k];
    }
  }

  lemma {:induction false} PrintHasNoSpace(n: Node)
    requires WellFormed(n)
    ensures ' ' !in Print(n)
  {
    match n
    case Constant(t) =>
      assert t[0..|t|] == t;
      ConstantChars(t, 0, |t|);
    case Variable(x) =>
    case Operator(op, l, r) =>
      PrintHasNoSpace(l);
      PrintHasNoSpace(r);
  }

  /** The round trip over a whole text: the parse consumes the printed form completely. */
  lemma PrintedTextParses(n: Node)
    requires WellFormed(n)
    ensures StripSpaces(Print(n)) == Print(n)
    ensures ParseAt(Print(n), 0) == Outcome(Success(n), |Print(n)|)
  {
    PrintHasNoSpace(n);
    StripSpacesIdentity(Print(n));
    assert Print(n)[0..|Print(n)|] == Print(n);
    PrintThenParse(n, Print(n), 0);
  }

  /**
   * A printed bracket form followed by anything still parses to the same tree, but the
   * cursor then stops short of the end of the text.
   */
  lemma PrintedPrefixStopsShort(n: Node, rest: string)
    requires WellFormed(n) && rest != []
    requires n.Operator? || IsDelimiter(rest[0])
    ensures ParseAt(Print(n) + rest, 0) == Outcome(Success(n), |Print(n)|)
    ensures |Print(n)| < |Print(n) + rest|
  {
    var s := Print(n) + rest;
    assert s[0..|Print(n)|] == Print(n);
    PrintThenParse(n, s, 0);
  }

  /**
   * The converse of PrintThenParse: whatever a parse returns is a well-formed tree whose
   * printed form is exactly the text the cursor moved over.
   */
  lemma {:induction false} ParsedIsPrinted(s: string, i: nat)
    requires i <= |s| && ParseAt(s, i).result.Success?
    ensures WellFormed(ParseAt(s, i).result.value)
    ensures s[i..ParseAt(s, i).cursor] == Print(ParseAt(s, i).result.value)
    decreases |s| - i, 1
  {
    if MatchAt(ConstantToken, s, i).Some? || MatchAt(VariableToken, s, i).Some? {
      LeafIsPrinted(s, i);
    } else {
      BracketFormIsPrinted(s, i);
    }
  }

  lemma LeafIsPrinted(s: string, i: nat)
    requires i <= |s| && (MatchAt(ConstantToken, s, i).Some? || MatchAt(VariableToken, s, i).Some?)
    ensures ParseAt(s, i).result.Success?
    ensures WellFormed(ParseAt(s, i).result.value)
    ensures s[i..ParseAt(s, i).cursor] == Print(ParseAt(s, i).result.value)
  {
    MatchIsLongest(ConstantToken, s, i);
    MatchIsLongest(VariableToken, s, i);
  }

  lemma {:induction false} BracketFormIsPrinted(s: string, i: nat)
    requires i <= |s| && ParseAt(s, i).result.Success?
    requires MatchAt(ConstantToken, s, i).None? && MatchAt(VariableToken, s, i).None?
    ensures WellFormed(ParseAt(s, i).result.value)
    ensures s[i..ParseAt(s, i).cursor] == Print(ParseAt(s, i).result.value)
    decreases |s| - i, 0
  {
    BracketFormOpens(s, i);
    var op, l, c1, r, c2 := BracketFormParts(s, i + 1);
    ParsedIsPrinted(s, i + 1);
    ParsedIsPrinted(s, c1 + 1);
    BracketIsPrinted(s, i, c1, c2, op, l, r);
  }

  /** A successful parse that starts with no token opens a bracket form. */
  lemma BracketFormOpens(s: string, i: nat)
    requires i <= |s| && ParseAt(s, i).result.Success?
    requires MatchAt(ConstantToken, s, i).None? && MatchAt(VariableToken, s, i).None?
    ensures i < |s| && s[i] == '(' && ParseAt(s, i) == BracketForm(s, i + 1)
  {
  }

  /** A successful bracket form: both operands parse, an operator symbol between, ')' after. */
  lemma BracketFormParts(s: string, j: nat) returns (op: Op, l: Node, c1: nat, r: Node, c2: nat)
    requires 0 < j <= |s| && BracketForm(s, j).result.Success?
    ensures c1 < |s| && ParseAt(s, j) == Outcome(Success(l), c1) && s[c1..c1 + 1] == [op.Symbol()]
    ensures c2 < |s| && ParseAt(s, c1 + 1) == Outcome(Success(r), c2) && s[c2] == ')'
    ensures BracketForm(s, j) == Outcome(Success(Operator(op, l, r)), c2 + 1)
  {
    var o1 := ParseAt(s, j);
    var o2 := ParseAt(s, o1.cursor + 1);
    op, l, c1, r, c2 := BracketForm(s, j).result.value.op, o1.result.value, o1.cursor, o2.result.value, o2.cursor;
  }

  /** Two printed operands in brackets, an operator symbol between, are the operator node printed. */
  lemma BracketIsPrinted(s: string, i: nat, c1: nat, c2: nat, op: Op, l: Node, r: Node)
    requires i < c1 < c2 < |s| && s[i] == '(' && s[c1..c1 + 1] == [op.Symbol()] && s[c2] == ')'
    requires WellFormed(l) && s[i + 1..c1] == Print(l)
    requires WellFormed(r) && s[c1 + 1..c2] == Print(r)
    ensures WellFormed(Operator(op, l, r))
    ensures s[i..c2 + 1] == Print(Operator(op, l, r))
  {
    assert s[c1] == s[c1..c1 + 1][0];
    BracketText(s, i, c1, c2, Print(l), op.Symbol(), Print(r));
  }

  /** The pieces of a bracketed text, found one after the other. */
  lemma BracketText(s: string, i: nat, c1: nat, c2: nat, pl: string, c: char, pr: string)
    requires i < c1 < c2 < |s| && s[i] == '(' && s[c2] == ')'
    requires s[i + 1..c1] == pl && s[c1] == c && s[c1 + 1..c2] == pr
    ensures s[i..c2 + 1] == "(" + pl + [c] + pr + ")"
  {
    var t := "(" + pl + [c] + pr + ")";
    var u := s[i..c2 + 1];
    BracketPieces(t, pl, c, pr);
    assert |u| == |t|;
    forall k | 0 <= k < |t|
      ensures u[k] == t[k]
    {
      if 1 <= k < 1 + |pl| {
        assert t[k] == t[1..1 + |pl|][k - 1];
        assert u[k] == s[i + 1..c1][k - 1];
      } else if 2 + |pl| <= k < 2 + |pl| + |pr| {
        assert t[k] == t[2 + |pl|..2 + |pl| + |pr|][k - 2 - |pl|];
        assert u[k] == s[c1 + 1..c2][k - 2 - |pl|];
      }
    }
  }

  /** A character that starts no token is reported at the cursor, whatever else the text holds. */
  lemma NoTokenStartsHere(s: string, i: nat)
    requires i < |s|
    requires !IsDigit(s[i]) && !IsLowerLetter(s[i]) && s[i] != '('
    ensures ParseAt(s, i) == Outcome(Failure(UnexpectedChar(i, s[i])), i)
  {
  }
}
