/**
 * The parts of java.lang.String that the request pipeline relies on:
 * `split` with a one-character delimiter, `replace(" ", "")`,
 * and the decimal rendering of `%d`.
 */
module JavaStrings {

  predicate IsDigit(c: char) { '0' <= c <= '9' }

  predicate IsLowerLetter(c: char) { 'a' <= c <= 'z' }

  predicate AllDigits(s: string) { forall k :: 0 <= k < |s| ==> IsDigit(s[k]) }

  /** String.endsWith. */
  predicate EndsWith(s: string, suffix: string) { |suffix| <= |s| && s[|s| - |suffix|..] == suffix }

  lemma EndsWithConcat(a: string, b: string)
    ensures EndsWith(a + b, b)
  {
    assert (a + b)[|a|..] == b;
  }

  // ---------------------------------------------------------------------------
  // s.replace(" ", "")

  /** The string with every space character ' ' removed; no other character is touched. */
  function StripSpaces(s: string): (r: string)
    ensures |r| <= |s|
    ensures ' ' !in r
    ensures forall c :: c != ' ' ==> (c in r <==> c in s)
  {
    if s == [] then []
    else if s[0] == ' ' then StripSpaces(s[1..])
    else [s[0]] + StripSpaces(s[1..])
  }

  lemma {:induction false} StripSpacesIdentity(s: string)
    requires ' ' !in s
    ensures StripSpaces(s) == s
  {
    if s != [] {
      StripSpacesIdentity(s[1..]);
    }
  }

  lemma {:induction false} StripSpacesAppend(a: string, b: string)
    ensures StripSpaces(a + b) == StripSpaces(a) + StripSpaces(b)
  {
    if a == [] {
      assert a + b == b;
    } else {
      assert (a + b)[1..] == a[1..] + b;
      StripSpacesAppend(a[1..], b);
    }
  }

  // ---------------------------------------------------------------------------
  // s.split(d) for a delimiter that is one ordinary character

  /** Every field between delimiters, empty ones included: one more field than delimiters. */
  function Fields(s: string, d: char): (r: seq<string>)
    ensures |r| >= 1
    decreases |s|
  {
    if s == [] then [""]
    else
      var rest := Fields(s[1..], d);
      if s[0] == d then [""] + rest else [[s[0]] + rest[0]] + rest[1..]
  }

  /** Fields joined back with the delimiter. */
  function Join(parts: seq<string>, d: char): string
    requires |parts| >= 1
    decreases |parts|
  {
    if |parts| == 1 then parts[0] else parts[0] + [d] + Join(parts[1..], d)
  }

  function DropTrailingEmpty(parts: seq<string>): (r: seq<string>)
    ensures |r| <= |parts| && r == parts[..|r|]
    ensures r != [] ==> r[|r| - 1] != ""
    ensures forall k :: |r| <= k < |parts| ==> parts[k] == ""
  {
    if parts != [] && parts[|parts| - 1] == "" then DropTrailingEmpty(parts[..|parts| - 1])
    else parts
  }

  /**
   * Java's String.split(d): a string without the delimiter is returned whole (so "" gives
   * [""]); otherwise the fields are taken and trailing empty fields are removed.
   */
  function JavaSplit(s: string, d: char): seq<string>
  {
    if d !in s then [s] else DropTrailingEmpty(Fields(s, d))
  }

  lemma {:induction false} FieldsJoin(s: string, d: char)
    ensures Join(Fields(s, d), d) == s
    ensures forall k :: 0 <= k < |Fields(s, d)| ==> d !in Fields(s, d)[k]
    decreases |s|
  {
    if s != [] {
      FieldsJoin(s[1..], d);
      var rest := Fields(s[1..], d);
      if s[0] == d {
        assert Fields(s, d)[1..] == rest;
        assert s == [s[0]] + s[1..];
      } else {
        var r := Fields(s, d);
        assert r[1..] == rest[1..];
        forall k | 0 <= k < |r| ensures d !in r[k] {
          if k > 0 { assert r[k] == rest[k]; }
        }
        if |rest| == 1 {
          assert s == [s[0]] + s[1..];
        } else {
          assert Join(rest, d) == rest[0] + [d] + Join(rest[1..], d);
          assert s == [s[0]] + s[1..];
        }
      }
    }
  }

  /** A string that starts with a delimiter-free field `p` followed by `d`. */
  lemma {:induction false} FieldsOfPrefix(p: string, d: char, rest: string)
    requires d !in p
    ensures Fields(p + [d] + rest, d) == [p] + Fields(rest, d)
    decreases |p|
  {
    if p == [] {
      assert p + [d] + rest == [d] + rest;
      assert ([d] + rest)[1..] == rest;
    } else {
      assert (p + [d] + rest)[1..] == p[1..] + [d] + rest;
      FieldsOfPrefix(p[1..], d, rest);
      assert p == [p[0]] + p[1..];
    }
  }

  lemma {:induction false} FieldsWithout(s: string, d: char)
    requires d !in s
    ensures Fields(s, d) == [s]
    decreases |s|
  {
    if s != [] {
      FieldsWithout(s[1..], d);
      assert s == [s[0]] + s[1..];
    }
  }

  /**
   * The first field of a split is the text before the first delimiter, and it survives the
   * removal of trailing empty fields when it is not empty.
   */
  lemma {:induction false} JavaSplitFirst(p: string, d: char, rest: string)
    requires d !in p && p != ""
    ensures |JavaSplit(p + [d] + rest, d)| >= 1
    ensures JavaSplit(p + [d] + rest, d)[0] == p
  {
    var s := p + [d] + rest;
    assert s[|p|] == d;
    FieldsOfPrefix(p, d, rest);
    assert Fields(s, d)[0] == p;
  }

  /** Two non-empty delimiter-free halves around one delimiter split into exactly those halves. */
  lemma JavaSplitTwo(a: string, d: char, b: string)
    requires d !in a && d !in b && b != ""
    ensures JavaSplit(a + [d] + b, d) == [a, b]
  {
    var s := a + [d] + b;
    assert s[|a|] == d;
    FieldsOfPrefix(a, d, b);
    FieldsWithout(b, d);
    assert Fields(s, d) == [a, b];
  }

  // ---------------------------------------------------------------------------
  // String.format("%d", n) for the non-negative offsets the parser reports

  function DigitChar(n: nat): char
    requires n < 10
  {
    ['0', '1', '2', '3', '4', '5', '6', '7', '8', '9'][n]
  }

  function NatToString(n: nat): (r: string)
    ensures |r| >= 1 && AllDigits(r)
    ensures |r| > 1 ==> r[0] != '0'
  {
    if n < 10 then [DigitChar(n)] else NatToString(n / 10) + [DigitChar(n % 10)]
  }
}
