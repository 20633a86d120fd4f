/** The analyzer's single pass over one line, stated as a state machine: the
    state is the scan's local variables plus the two stacks, `Step` is one turn
    of the loop body, `Scan` runs the loop over a prefix of the line and
    `Analysis` adds the end-of-line handling. The class in AnalyzerImpl is
    proved to compute exactly these functions. */
module Analyzer {
  import opened Handlers
  import opened Syntax

  /** The kind of the most recently completed token. */
  datatype WordType = NoWord | NumberWord | VarNameWord | UnaryOpWord

  /** The kind of token being assembled, if any. */
  datatype ConstructingWordType = NotConstructing | ConstructingNumber | ConstructingWord

  /** What the analyzer looks up outside itself: the whitespace test, the
      symbol table for binary operators and the handler used for implicit
      multiplication. */
  datatype Tables = Tables(
    isWhiteSpace: char -> bool,
    symbolToBinaryHandler: char -> Option<BinaryHandler>,
    multiplicationHandler: BinaryHandler)

  /** The scan's local variables and the two stacks (tops at the end). The
      number being assembled is kept as the integer formed by its digits;
      its decimal scaling is applied when it is finished. */
  datatype State = State(
    wordStartIndex: int,
    layer: int,
    number: nat,
    lastValidDigit: int,
    decimalPointDepth: int,
    lastWord: WordType,
    constructingWord: ConstructingWordType,
    constructingOperations: seq<Operation>,
    finishedOperations: seq<Node>)

  const Initial: State := State(0, 0, 0, -1, -1, NoWord, NotConstructing, [], [])

  predicate IsDigit(c: char)
  {
    '0' <= c <= '9'
  }

  function DigitValue(c: char): (d: nat)
    requires IsDigit(c)
    ensures d < 10
  {
    c as int - '0' as int
  }

  function Pow10(n: nat): (p: nat)
    ensures 1 <= p
  {
    if n == 0 then 1 else 10 * Pow10(n - 1)
  }

  /** `x` divided by ten, `d` times over. */
  function Shift(x: real, d: nat): real
  {
    if d == 0 then x else Shift(x, d - 1) / 10.0
  }

  /** Dividing by ten `d` times is dividing by the `d`-th power of ten. */
  lemma {:induction false} ShiftIsDivision(x: real, d: nat)
    ensures Shift(x, d) == x / Pow10(d) as real
  {
    if d > 0 {
      ShiftIsDivision(x, d - 1);
      var p := Pow10(d - 1) as real;
      assert Pow10(d) as real == 10.0 * p;
      assert (x / p) / 10.0 == x / (10.0 * p);
    }
  }

  /** The value of a finished number: its digits scaled down by ten per digit
      after the decimal point. */
  function LiteralValue(number: nat, decimalPointDepth: int): real
  {
    if decimalPointDepth > 0 then Shift(number as real, decimalPointDepth) else number as real
  }

  /** Begins a token at `i` unless one is already being assembled. */
  function StartConstructWord(s: State, i: int, kind: ConstructingWordType): State
  {
    if s.constructingWord != NotConstructing then s
    else s.(constructingWord := kind, wordStartIndex := i, number := 0, lastValidDigit := -1, decimalPointDepth := -1)
  }

  /** Ends the token being assembled at `i`: a token whose last character is
      not a digit is an unknown word; otherwise a literal is pushed. */
  function FinishConstructWord(s: State, i: int): (r: Result<State>)
    ensures r.Failure? <==>
      s.constructingWord != NotConstructing && s.wordStartIndex < i && s.lastValidDigit != i - 1
    ensures r.Failure? ==> r.error == SyntaxError(UnknownWord, s.wordStartIndex, i)
    ensures r.Success? ==> r.value.constructingWord == NotConstructing
  {
    if s.constructingWord == NotConstructing then Success(s)
    else if s.wordStartIndex < i && s.lastValidDigit != i - 1 then
      Failure(SyntaxError(UnknownWord, s.wordStartIndex, i))
    else
      var finished :=
        if s.wordStartIndex < i
        then s.finishedOperations + [Literal(LiteralValue(s.number, s.decimalPointDepth), s.wordStartIndex, i)]
        else s.finishedOperations;
      Success(s.(
        finishedOperations := finished,
        lastWord := if s.constructingWord == ConstructingNumber then NumberWord else UnaryOpWord,
        constructingWord := NotConstructing))
  }

  /** How many operands reducing `op` takes. */
  function Arity(op: Operation): nat
  {
    if op.PendingBinary? then 2 else 1
  }

  /** Reduces a pending operator: pops its operands (for a binary operator the
      right one first), attaches them and pushes the node back. Fails when the
      stack holds too few operands; the right operand is then already popped. */
  function PushOp(op: Operation, finished: seq<Node>): (r: (bool, seq<Node>))
    ensures r.0 <==> Arity(op) <= |finished|
    ensures r.0 ==>
      && |r.1| == |finished| - Arity(op) + 1
      && r.1[..|r.1| - 1] == finished[..|finished| - Arity(op)]
    ensures !r.0 ==> r.1 == []
    ensures r.0 && op.PendingBinary? ==>
      var left := finished[|finished| - 2];
      var right := finished[|finished| - 1];
      r.1[|r.1| - 1] == Binary(op.handler, left, right, left.startChar, right.endChar)
    ensures r.0 && op.PendingUnary? ==>
      var inside := finished[|finished| - 1];
      r.1[|r.1| - 1] == Unary(op.unaryHandler, inside, op.startChar, inside.endChar)
  {
    match op
    case PendingBinary(h, _, _) =>
      if |finished| < 1 then (false, finished)
      else
        var right := finished[|finished| - 1];
        var rest := finished[..|finished| - 1];
        if |rest| < 1 then (false, rest)
        else
          var left := rest[|rest| - 1];
          (true, rest[..|rest| - 1] + [Binary(h, left, right, left.startChar, right.endChar)])
    case PendingUnary(h, _, _, start) =>
      if |finished| < 1 then (false, finished)
      else
        var inside := finished[|finished| - 1];
        (true, finished[..|finished| - 1] + [Unary(h, inside, start, inside.endChar)])
  }

  /** Reducing an operator keeps the literals of the stack, in order. */
  lemma PushOpKeepsLeaves(op: Operation, finished: seq<Node>)
    requires PushOp(op, finished).0
    ensures LeavesOf(PushOp(op, finished).1) == LeavesOf(finished)
  {
    var n := |finished|;
    if op.PendingBinary? {
      var left := finished[n - 2];
      var right := finished[n - 1];
      var below := finished[..n - 2];
      assert finished[..n - 1][..n - 2] == below;
      assert PushOp(op, finished).1 == below + [Binary(op.handler, left, right, left.startChar, right.endChar)];
      assert finished == below + [left] + [right];
      BinaryKeepsLeaves(below, op.handler, left, right);
    } else {
      var inside := finished[n - 1];
      var below := finished[..n - 1];
      assert finished == below + [inside];
      LeavesOfPush(below, inside);
      LeavesOfPush(below, Unary(op.unaryHandler, inside, op.startChar, inside.endChar));
    }
  }

  lemma BinaryKeepsLeaves(below: seq<Node>, h: BinaryHandler, left: Node, right: Node)
    ensures LeavesOf(below + [Binary(h, left, right, left.startChar, right.endChar)]) ==
      LeavesOf(below + [left] + [right])
  {
    LeavesOfPush(below, left);
    LeavesOfPush(below + [left], right);
    LeavesOfPush(below, Binary(h, left, right, left.startChar, right.endChar));
  }

  /** The reduction rule: the top pending operator is reduced before a new one
      when it sits in a deeper layer, or in the same layer with an order at
      least as high. */
  predicate Reduces(top: Operation, layer: int, order: int)
  {
    top.layer > layer || (top.layer == layer && top.order >= order)
  }

  /** Adds a binary operator read at `indexForError`: needs an operand before
      it, reduces at most the one pending operator on top when the reduction
      rule says so, then pushes the new operator. */
  function AddBinaryOperation(s: State, layer: int, h: BinaryHandler, indexForError: int): (r: Result<State>)
    ensures r.Failure? ==>
      && r.error.startIndex == indexForError && r.error.endIndex == indexForError + 1
      && (r.error.message == EmptyOperation || r.error.message == InvalidOperation)
    ensures r.Failure? && r.error.message == EmptyOperation <==> |s.finishedOperations| == 0
    ensures r.Success? ==>
      var p := r.value.constructingOperations;
      && |p| >= 1 && p[|p| - 1] == PendingBinary(h, layer, Order(h))
      && p[..|p| - 1] <= s.constructingOperations
      && |s.constructingOperations| <= |p|
      && r.value == s.(constructingOperations := p, finishedOperations := r.value.finishedOperations)
  {
    if |s.finishedOperations| < 1 then Failure(ErrorAt(EmptyOperation, indexForError))
    else
      var pending := s.constructingOperations;
      var newOp := PendingBinary(h, layer, Order(h));
      if |pending| >= 1 && Reduces(pending[|pending| - 1], layer, Order(h)) then
        var reduced := PushOp(pending[|pending| - 1], s.finishedOperations);
        if !reduced.0 then Failure(ErrorAt(InvalidOperation, indexForError))
        else Success(s.(constructingOperations := pending[..|pending| - 1] + [newOp], finishedOperations := reduced.1))
      else
        Success(s.(constructingOperations := pending + [newOp]))
  }

  /** The reduction rule at work: when the operator on top of the pending
      stack reduces, it is replaced by the new operator and the operand stack
      becomes that reduction's result, and "Invalid Operation" is reported
      exactly when it has too few operands; otherwise the new operator is
      pushed and the operands stay as they are. */
  lemma AddBinaryRule(s: State, layer: int, h: BinaryHandler, indexForError: int)
    ensures var r := AddBinaryOperation(s, layer, h, indexForError);
      var p := s.constructingOperations;
      var reduces := |p| >= 1 &&
        (p[|p| - 1].layer > layer || (p[|p| - 1].layer == layer && p[|p| - 1].order >= Order(h)));
      && (r.Failure? && r.error.message == InvalidOperation <==>
            reduces && 1 <= |s.finishedOperations| < Arity(p[|p| - 1]))
      && (r.Success? && reduces ==>
            && r.value.constructingOperations == p[..|p| - 1] + [PendingBinary(h, layer, Order(h))]
            && r.value.finishedOperations == PushOp(p[|p| - 1], s.finishedOperations).1)
      && (r.Success? && !reduces ==>
            && r.value.constructingOperations == p + [PendingBinary(h, layer, Order(h))]
            && r.value.finishedOperations == s.finishedOperations)
  {
  }

  /** Adding an operator keeps the literals of the operand stack, in order. */
  lemma AddBinaryKeepsLeaves(s: State, layer: int, h: BinaryHandler, indexForError: int)
    requires AddBinaryOperation(s, layer, h, indexForError).Success?
    ensures LeavesOf(AddBinaryOperation(s, layer, h, indexForError).value.finishedOperations)
      == LeavesOf(s.finishedOperations)
  {
    var pending := s.constructingOperations;
    if |pending| >= 1 && Reduces(pending[|pending| - 1], layer, Order(h)) {
      PushOpKeepsLeaves(pending[|pending| - 1], s.finishedOperations);
    }
  }

  /** A digit or a decimal point: ends a word in progress, and begins a number
      unless one is in progress; two operands in a row are refused. */
  function NumberStart(s: State, i: int): Result<State>
  {
    var s1 :- if s.constructingWord == ConstructingWord then FinishConstructWord(s, i) else Success(s);
    if s1.constructingWord == NotConstructing then
      var s2 := StartConstructWord(s1, i, ConstructingNumber);
      if s2.lastWord == NumberWord || s2.lastWord == VarNameWord then Failure(ErrorAt(TwoNumbersBackToBack, i))
      else Success(s2)
    else Success(s1)
  }

  /** An opening bracket: ends the token in progress, inserts a multiplication
      after an operand, and goes one layer deeper. */
  function OpenBracket(s: State, i: int, t: Tables): Result<State>
  {
    var s1 :- if s.constructingWord != NotConstructing then FinishConstructWord(s, i) else Success(s);
    var s2 :-
      if s1.lastWord == NumberWord || s1.lastWord == VarNameWord
      then AddBinaryOperation(s1.(lastWord := NoWord), s1.layer, t.multiplicationHandler, i)
      else Success(s1);
    Success(s2.(layer := s2.layer + 1))
  }

  /** A closing bracket: refused at layer 0 and right after an operator or an
      opening bracket; otherwise goes one layer up. */
  function CloseBracket(s: State, i: int): Result<State>
  {
    if s.layer == 0 then Failure(ErrorAt(TooManyBackets, i))
    else
      var s1 :- if s.constructingWord != NotConstructing then FinishConstructWord(s, i) else Success(s);
      if s1.lastWord == NoWord then Failure(ErrorAt(EmptyBackets, i))
      else Success(s1.(layer := s1.layer - 1))
  }

  /** A decimal point inside a number: only one is allowed. */
  function DecimalPoint(s: State, i: int): Result<State>
  {
    if s.decimalPointDepth != -1 then Failure(ErrorAt(TooManyDecimalPoint, i))
    else Success(s.(decimalPointDepth := 0))
  }

  /** A digit inside a number: shifts it into the number, and counts it when
      it follows the decimal point. */
  function Digit(s: State, i: int, c: char): State
    requires IsDigit(c)
  {
    s.(lastValidDigit := i,
       number := s.number * 10 + DigitValue(c),
       decimalPointDepth := if s.decimalPointDepth >= 0 then s.decimalPointDepth + 1 else s.decimalPointDepth)
  }

  /** Any other character: ends a number in progress; a character with a
      binary handler adds that operator, any other begins or continues a
      word. */
  function OtherCharacter(s: State, i: int, c: char, t: Tables): Result<State>
  {
    var s1 :- if s.constructingWord == ConstructingNumber then FinishConstructWord(s, i) else Success(s);
    match t.symbolToBinaryHandler(c)
    case None => Success(StartConstructWord(s1, i, ConstructingWord))
    case Some(h) => AddBinaryOperation(s1.(lastWord := NoWord), s1.layer, h, i)
  }

  /** One turn of the loop over the line: character `c` at index `i`. */
  function Step(s: State, i: int, c: char, t: Tables): Result<State>
  {
    if t.isWhiteSpace(c) then FinishConstructWord(s, i)
    else
      var s1 :- if c == '.' || IsDigit(c) then NumberStart(s, i) else Success(s);
      if c == ',' && s1.constructingWord == ConstructingNumber then Success(s1)
      else if c == '(' then OpenBracket(s1, i, t)
      else if c == ')' then CloseBracket(s1, i)
      else if c == '.' then DecimalPoint(s1, i)
      else if IsDigit(c) then Success(Digit(s1, i, c))
      else OtherCharacter(s1, i, c, t)
  }

  /** The state after the loop has consumed the first `n` characters. */
  function Scan(text: string, n: nat, t: Tables): Result<State>
    requires n <= |text|
  {
    if n == 0 then Success(Initial)
    else
      var s :- Scan(text, n - 1, t);
      Step(s, n - 1, text[n - 1], t)
  }

  /** End of line: pending operators are reduced, last in first out, until the
      stack is empty or a reduction fails. */
  function Drain(pending: seq<Operation>, finished: seq<Node>): (r: seq<Node>)
    ensures r != [] <==> |finished| > Consumed(pending)
    ensures r != [] ==> |r| == |finished| - Consumed(pending) && r[..|r| - 1] == finished[..|r| - 1]
  {
    if pending == [] then finished
    else
      var reduced := PushOp(pending[|pending| - 1], finished);
      if reduced.0 then Drain(pending[..|pending| - 1], reduced.1) else reduced.1
  }

  /** How many operands reducing every operator of `pending` removes from
      the operand stack: one per binary operator. */
  function Consumed(pending: seq<Operation>): nat
  {
    if pending == [] then 0 else Consumed(pending[..|pending| - 1]) + Arity(pending[|pending| - 1]) - 1
  }

  /** Nothing is left to drain from an empty operand stack. */
  lemma DrainEmpty(pending: seq<Operation>)
    ensures Drain(pending, []) == []
  {
  }

  /** The pending stack is drained last in first out: the operators pushed
      last are reduced first, then the ones below them. */
  lemma {:induction false} DrainLastInFirstOut(below: seq<Operation>, top: seq<Operation>, finished: seq<Node>)
    ensures Drain(below + top, finished) == Drain(below, Drain(top, finished))
    decreases |top|
  {
    if top == [] {
      assert below + top == below;
    } else {
      var op := top[|top| - 1];
      assert (below + top)[..|below + top| - 1] == below + top[..|top| - 1];
      assert (below + top)[|below + top| - 1] == op;
      var reduced := PushOp(op, finished);
      if reduced.0 {
        DrainLastInFirstOut(below, top[..|top| - 1], reduced.1);
      } else {
        DrainEmpty(below);
      }
    }
  }

  /** A drained stack that is not empty holds the same literals. */
  lemma {:induction false} DrainKeepsLeaves(pending: seq<Operation>, finished: seq<Node>)
    ensures Drain(pending, finished) != [] ==> LeavesOf(Drain(pending, finished)) == LeavesOf(finished)
  {
    if pending != [] {
      var reduced := PushOp(pending[|pending| - 1], finished);
      if reduced.0 {
        PushOpKeepsLeaves(pending[|pending| - 1], finished);
        DrainKeepsLeaves(pending[..|pending| - 1], reduced.1);
      }
    }
  }

  /** The whole analysis of one line: the tree it reduces to, or the first
      syntax error. */
  function Analysis(text: string, t: Tables): Result<Node>
  {
    var s :- Scan(text, |text|, t);
    var s1 :- if s.constructingWord != NotConstructing then FinishConstructWord(s, |text|) else Success(s);
    var finished := Drain(s1.constructingOperations, s1.finishedOperations);
    if |finished| != 1 then Failure(ErrorAt(FinishedOpIsNot1, |text| - 1))
    else Success(finished[0])
  }
}
