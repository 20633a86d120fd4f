/** Text-level notions the analyzer's guarantees are stated in: what a number
    token looks like, the value it denotes, and the bracket balance of a
    prefix of the line. None of them refers to the analyzer's state. */
module Tokens {
  import opened Analyzer

  predicate IsNumberChar(c: char)
  {
    IsDigit(c) || c == '.' || c == ','
  }

  /** The digits of a token, in order; points and commas are dropped. */
  function Digits(tok: seq<char>): (ds: seq<char>)
    ensures |ds| <= |tok|
    ensures forall k :: 0 <= k < |ds| ==> IsDigit(ds[k])
  {
    if tok == [] then []
    else Digits(tok[..|tok| - 1]) + (if IsDigit(tok[|tok| - 1]) then [tok[|tok| - 1]] else [])
  }

  /** The integer a string of decimal digits denotes. */
  function NumeralValue(ds: seq<char>): nat
    requires forall k :: 0 <= k < |ds| ==> IsDigit(ds[k])
  {
    if ds == [] then 0 else NumeralValue(ds[..|ds| - 1]) * 10 + DigitValue(ds[|ds| - 1])
  }

  /** The index of the first decimal point, or |tok| when there is none. */
  function PointIndex(tok: seq<char>): (k: nat)
    ensures k <= |tok|
    ensures k < |tok| ==> tok[k] == '.'
    ensures forall j :: 0 <= j < k ==> tok[j] != '.'
  {
    if tok == [] then 0
    else if tok[0] == '.' then 0
    else 1 + PointIndex(tok[1..])
  }

  /** The number of digits after the decimal point, or -1 without one. */
  function PointDepth(tok: seq<char>): int
  {
    if PointIndex(tok) < |tok| then |Digits(tok[PointIndex(tok) + 1..])| else -1
  }

  function FractionDigits(tok: seq<char>): nat
  {
    if PointIndex(tok) < |tok| then |Digits(tok[PointIndex(tok) + 1..])| else 0
  }

  /** The value a number token denotes: the integer formed by its digits,
      divided by ten per digit after the decimal point. */
  function TokenValue(tok: seq<char>): real
  {
    NumeralValue(Digits(tok)) as real / Pow10(FractionDigits(tok)) as real
  }

  /** A number token being assembled: it starts with a digit or a point,
      holds only digits, points and commas, none of them whitespace, and at
      most one point. */
  ghost predicate NumberPrefix(tok: seq<char>, t: Tables)
  {
    && |tok| > 0
    && (IsDigit(tok[0]) || tok[0] == '.')
    && (forall k :: 0 <= k < |tok| ==> IsNumberChar(tok[k]) && !t.isWhiteSpace(tok[k]))
    && (forall k :: PointIndex(tok) < k < |tok| ==> tok[k] != '.')
  }

  /** A complete number token also ends in a digit. */
  ghost predicate IsNumberToken(tok: seq<char>, t: Tables)
  {
    NumberPrefix(tok, t) && IsDigit(tok[|tok| - 1])
  }

  /** How a character changes the bracket depth. */
  function BracketDelta(c: char, t: Tables): int
  {
    if t.isWhiteSpace(c) then 0
    else if c == '(' then 1
    else if c == ')' then -1
    else 0
  }

  /** Opening minus closing brackets among the first `n` characters. */
  function Balance(text: string, n: nat, t: Tables): int
    requires n <= |text|
  {
    if n == 0 then 0 else Balance(text, n - 1, t) + BracketDelta(text[n - 1], t)
  }

  lemma DigitsStep(tok: seq<char>, c: char)
    ensures Digits(tok + [c]) == Digits(tok) + (if IsDigit(c) then [c] else [])
  {
    assert (tok + [c])[..|tok|] == tok;
  }

  lemma MantissaStep(tok: seq<char>, c: char)
    ensures NumeralValue(Digits(tok + [c])) ==
      if IsDigit(c) then NumeralValue(Digits(tok)) * 10 + DigitValue(c) else NumeralValue(Digits(tok))
  {
    DigitsStep(tok, c);
    if IsDigit(c) {
      var ds := Digits(tok) + [c];
      assert ds[..|ds| - 1] == Digits(tok);
      assert NumeralValue(ds) == NumeralValue(Digits(tok)) * 10 + DigitValue(c);
    } else {
      assert Digits(tok) + [] == Digits(tok);
    }
  }

  lemma {:induction false} PointIndexStep(tok: seq<char>, c: char)
    ensures PointIndex(tok + [c]) ==
      if PointIndex(tok) < |tok| then PointIndex(tok) else if c == '.' then |tok| else |tok| + 1
  {
    var k := PointIndex(tok + [c]);
    var k0 := PointIndex(tok);
    if k0 < |tok| {
      assert (tok + [c])[k0] == '.';
    } else {
      forall j | 0 <= j < |tok|
        ensures (tok + [c])[j] != '.'
      {
        assert (tok + [c])[j] == tok[j];
      }
      if c == '.' {
        assert (tok + [c])[|tok|] == '.';
      }
    }
  }

  /** Extending a token by one character: the digits after the first point
      grow by a digit, or a first point starts them. */
  lemma PointDepthStep(tok: seq<char>, c: char)
    ensures PointDepth(tok + [c]) ==
      if PointDepth(tok) == -1 then (if c == '.' then 0 else -1)
      else if IsDigit(c) then PointDepth(tok) + 1
      else PointDepth(tok)
  {
    PointIndexStep(tok, c);
    var k0 := PointIndex(tok);
    if k0 < |tok| {
      assert (tok + [c])[k0 + 1..] == tok[k0 + 1..] + [c];
      DigitsStep(tok[k0 + 1..], c);
    } else if c == '.' {
      assert (tok + [c])[|tok| + 1..] == [];
    }
  }

  lemma NumberPrefixStep(tok: seq<char>, c: char, t: Tables)
    requires NumberPrefix(tok, t)
    requires IsNumberChar(c) && !t.isWhiteSpace(c)
    requires c == '.' ==> PointDepth(tok) == -1
    ensures NumberPrefix(tok + [c], t)
  {
    PointIndexStep(tok, c);
    var tok' := tok + [c];
    forall k | 0 <= k < |tok'|
      ensures IsNumberChar(tok'[k]) && !t.isWhiteSpace(tok'[k])
    {
      if k < |tok| {
        assert tok'[k] == tok[k];
      }
    }
    forall k | PointIndex(tok') < k < |tok'|
      ensures tok'[k] != '.'
    {
      if k < |tok| {
        assert tok'[k] == tok[k];
      }
    }
  }

  /** A number token of one character. */
  lemma SingleCharacter(c: char, t: Tables)
    requires (IsDigit(c) || c == '.') && !t.isWhiteSpace(c)
    ensures NumberPrefix([c], t)
    ensures NumeralValue(Digits([c])) == if IsDigit(c) then DigitValue(c) else 0
    ensures PointDepth([c]) == if c == '.' then 0 else -1
  {
    MantissaStep([], c);
    PointDepthStep([], c);
    assert [] + [c] == [c];
  }

  /* The same notions read in place, on the characters text[a..b] of the
     line, one character at a time from the left. */

  /** The integer formed by the digits of text[a..b]. */
  function SpanMantissa(text: string, a: int, b: int): nat
    requires 0 <= a <= b <= |text|
    decreases b - a
  {
    if b == a then 0
    else if IsDigit(text[b - 1]) then SpanMantissa(text, a, b - 1) * 10 + DigitValue(text[b - 1])
    else SpanMantissa(text, a, b - 1)
  }

  /** The number of digits after the first point of text[a..b], or -1
      without one. */
  function SpanPointDepth(text: string, a: int, b: int): (depth: int)
    requires 0 <= a <= b <= |text|
    ensures -1 <= depth <= b - a
    decreases b - a
  {
    if b == a then -1
    else
      var d := SpanPointDepth(text, a, b - 1);
      if d == -1 then (if text[b - 1] == '.' then 0 else -1)
      else if IsDigit(text[b - 1]) then d + 1
      else d
  }

  /** text[a..b] is a number token being assembled. */
  ghost predicate NumberSpan(text: string, a: int, b: int, t: Tables)
    requires 0 <= a <= b <= |text|
    decreases b - a
  {
    && a < b
    && IsNumberChar(text[b - 1]) && !t.isWhiteSpace(text[b - 1])
    && if b == a + 1 then text[a] != ','
       else NumberSpan(text, a, b - 1, t) && (text[b - 1] == '.' ==> SpanPointDepth(text, a, b - 1) == -1)
  }

  /** Reading the digits in place agrees with reading the token. */
  lemma {:induction false} SpanMantissaAgrees(text: string, a: int, b: int)
    requires 0 <= a <= b <= |text|
    ensures SpanMantissa(text, a, b) == NumeralValue(Digits(text[a..b]))
    decreases b - a
  {
    if b == a {
      assert text[a..b] == [];
    } else {
      SpanMantissaAgrees(text, a, b - 1);
      assert text[a..b] == text[a..b - 1] + [text[b - 1]];
      MantissaStep(text[a..b - 1], text[b - 1]);
    }
  }

  /** Locating the point in place agrees with reading the token. */
  lemma {:induction false} SpanPointDepthAgrees(text: string, a: int, b: int)
    requires 0 <= a <= b <= |text|
    ensures SpanPointDepth(text, a, b) == PointDepth(text[a..b])
    decreases b - a
  {
    if b == a {
      assert text[a..b] == [];
    } else {
      SpanPointDepthAgrees(text, a, b - 1);
      assert text[a..b] == text[a..b - 1] + [text[b - 1]];
      PointDepthStep(text[a..b - 1], text[b - 1]);
    }
  }

  /** A number span is a well-formed number token. */
  lemma {:induction false} SpanIsNumberPrefix(text: string, a: int, b: int, t: Tables)
    requires 0 <= a <= b <= |text|
    requires NumberSpan(text, a, b, t)
    ensures NumberPrefix(text[a..b], t)
    decreases b - a
  {
    var c := text[b - 1];
    if b == a + 1 {
      assert text[a..b] == [c];
      SingleCharacter(c, t);
    } else {
      SpanIsNumberPrefix(text, a, b - 1, t);
      SpanPointDepthAgrees(text, a, b - 1);
      assert text[a..b] == text[a..b - 1] + [c];
      NumberPrefixStep(text[a..b - 1], c, t);
    }
  }

  /** Reading in place agrees with reading the token as a string. */
  lemma SpanAgrees(text: string, a: int, b: int, t: Tables)
    requires 0 <= a <= b <= |text|
    ensures SpanMantissa(text, a, b) == NumeralValue(Digits(text[a..b]))
    ensures SpanPointDepth(text, a, b) == PointDepth(text[a..b])
    ensures NumberSpan(text, a, b, t) ==> NumberPrefix(text[a..b], t)
  {
    SpanMantissaAgrees(text, a, b);
    SpanPointDepthAgrees(text, a, b);
    if NumberSpan(text, a, b, t) {
      SpanIsNumberPrefix(text, a, b, t);
    }
  }
}
