/** The invariant the scan keeps: what the analyzer's state says about the
    part of the line it has read. */
module ScanState {
  import opened Syntax
  import opened Analyzer
  import opened Tokens

  /** A literal that stands for the number token its span covers. */
  ghost predicate FaithfulLiteral(text: string, t: Tables, n: Node)
  {
    && n.Literal?
    && 0 <= n.startChar < n.endChar <= |text|
    && NumberSpan(text, n.startChar, n.endChar, t) && IsDigit(text[n.endChar - 1])
    && n.value == LiteralValue(SpanMantissa(text, n.startChar, n.endChar), SpanPointDepth(text, n.startChar, n.endChar))
  }

  /** Every literal of a tree stands for its token. */
  ghost predicate LiteralsFaithful(text: string, t: Tables, n: Node)
  {
    match n
    case Literal(_, _, _) => FaithfulLiteral(text, t, n)
    case Unary(_, inside, _, _) => LiteralsFaithful(text, t, inside)
    case Binary(_, left, right, _, _) => LiteralsFaithful(text, t, left) && LiteralsFaithful(text, t, right)
  }

  /** Position `k` lies inside one of the literals of a tree. */
  ghost predicate CoveredBy(n: Node, k: int)
  {
    match n
    case Literal(_, start, end) => start <= k < end
    case Unary(_, inside, _, _) => CoveredBy(inside, k)
    case Binary(_, left, right, _, _) => CoveredBy(left, k) || CoveredBy(right, k)
  }

  ghost predicate Covered(stack: seq<Node>, k: int)
  {
    exists j :: 0 <= j < |stack| && CoveredBy(stack[j], k)
  }

  /** Every digit before `bound` lies inside a literal of one of the
      operands. */
  ghost predicate DigitsCovered(text: string, t: Tables, stack: seq<Node>, bound: int)
    requires bound <= |text|
  {
    forall k {:trigger Covered(stack, k)} :: 0 <= k < bound && IsDigit(text[k]) && !t.isWhiteSpace(text[k]) ==> Covered(stack, k)
  }

  /** Operands made of literals that stand for their tokens and binary nodes
      with nested spans, none starting before the line, left to right, the
      last one ending by `bound`. */
  ghost predicate OperandsOk(text: string, t: Tables, stack: seq<Node>, bound: int)
  {
    stack == [] ||
    var last := stack[|stack| - 1];
    && NoUnary(last) && WellFormed(last) && LiteralsFaithful(text, t, last)
    && 0 <= last.startChar && last.endChar <= bound
    && OperandsOk(text, t, stack[..|stack| - 1], last.startChar)
  }

  /** Only binary operators are pending (nothing creates a unary one). */
  ghost predicate AllBinary(pending: seq<Operation>)
  {
    pending == [] || (pending[|pending| - 1].PendingBinary? && AllBinary(pending[..|pending| - 1]))
  }

  lemma {:induction false} AllBinaryPrefix(pending: seq<Operation>, k: nat)
    requires AllBinary(pending) && k <= |pending|
    ensures AllBinary(pending[..k])
    decreases |pending| - k
  {
    if k < |pending| {
      AllBinaryPrefix(pending[..|pending| - 1], k);
      assert pending[..|pending| - 1][..k] == pending[..k];
    } else {
      assert pending[..k] == pending;
    }
  }

  /** Where the completed part of the line ends: at the token in progress, if
      any. */
  function Bound(s: State, i: int): int
  {
    if s.constructingWord == NotConstructing then i else s.wordStartIndex
  }

  /** The token in progress agrees with the text it was read from. */
  ghost predicate TokenOk(text: string, i: nat, t: Tables, s: State)
    requires i <= |text|
  {
    match s.constructingWord
    case NotConstructing => true
    case ConstructingNumber =>
      && 0 <= s.wordStartIndex < i
      && NumberSpan(text, s.wordStartIndex, i, t)
      && s.number == SpanMantissa(text, s.wordStartIndex, i)
      && s.decimalPointDepth == SpanPointDepth(text, s.wordStartIndex, i)
      && s.lastValidDigit < i
      && (s.lastValidDigit == i - 1 <==> IsDigit(text[i - 1]))
    case ConstructingWord =>
      0 <= s.wordStartIndex < i && s.lastValidDigit == -1
  }

  /** The invariant of the scan after the first `i` characters. */
  ghost predicate Inv(text: string, i: nat, t: Tables, s: State)
    requires i <= |text|
  {
    && s.layer == Balance(text, i, t)
    && 0 <= s.layer
    && (s.lastWord == NoWord || s.lastWord == NumberWord)
    && 0 <= Bound(s, i) <= i
    && StacksOk(text, t, s.constructingOperations, s.finishedOperations, Bound(s, i))
    && TokenOk(text, i, t, s)
  }

  /** The two stacks: binary operators pending, and well-formed operands
      whose literals stand for their tokens and cover every digit before
      `bound`. */
  ghost predicate StacksOk(text: string, t: Tables, pending: seq<Operation>, finished: seq<Node>, bound: int)
    requires bound <= |text|
  {
    && AllBinary(pending)
    && OperandsOk(text, t, finished, bound)
    && DigitsCovered(text, t, finished, bound)
  }

  /** The stacks stay in order when the bound moves past characters that are
      not digits. */
  lemma StacksGrow(text: string, t: Tables, pending: seq<Operation>, finished: seq<Node>, b: int, b': int)
    requires 0 <= b <= b' <= |text| && StacksOk(text, t, pending, finished, b)
    requires forall k :: b <= k < b' ==> !IsDigit(text[k]) || t.isWhiteSpace(text[k])
    ensures StacksOk(text, t, pending, finished, b')
  {
  }
}
