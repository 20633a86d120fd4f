/** The analyzer as the source runs it: the two operator stacks and the
    variables the scan's local functions share are fields that the methods
    update in place. Each method is proved to compute the corresponding
    function of module Analyzer. */
module AnalyzerImpl {
  import opened Handlers
  import opened Syntax
  import opened Analyzer
  import AnalyzerProofs

  /** A method's outcome (an optional error and the state it leaves) as a
      `Result`. */
  function AsResult(err: Option<SyntaxError>, s: State): Result<State>
  {
    if err.Some? then Failure(err.value) else Success(s)
  }

  class SyntaxAnalyzer {
    /** Pending operators, top at the end. */
    var constructingOperations: seq<Operation>
    /** Completed operands, top at the end. */
    var finishedOperations: seq<Node>

    // The scan's variables, shared with its local functions.
    var wordStartIndex: int
    var layer: int
    var number: nat
    var lastValidDigit: int
    var decimalPointDepth: int
    var lastWord: WordType
    var constructingWord: ConstructingWordType

    /** The fields as a value of the specification's state. */
    function Snapshot(): State
      reads this
    {
      State(wordStartIndex, layer, number, lastValidDigit, decimalPointDepth,
            lastWord, constructingWord, constructingOperations, finishedOperations)
    }

    constructor ()
      ensures Snapshot() == Initial
    {
      constructingOperations := [];
      finishedOperations := [];
      wordStartIndex := 0;
      layer := 0;
      number := 0;
      lastValidDigit := -1;
      decimalPointDepth := -1;
      lastWord := NoWord;
      constructingWord := NotConstructing;
    }

    method StartConstructWord(i: int, kind: ConstructingWordType)
      modifies this
      ensures Snapshot() == Analyzer.StartConstructWord(old(Snapshot()), i, kind)
    {
      if constructingWord != NotConstructing {
        return;
      }
      constructingWord := kind;
      wordStartIndex := i;
      number := 0;
      lastValidDigit := -1;
      decimalPointDepth := -1;
    }

    method FinishConstructWord(i: int) returns (err: Option<SyntaxError>)
      modifies this
      ensures AsResult(err, Snapshot()) == Analyzer.FinishConstructWord(old(Snapshot()), i)
    {
      if constructingWord == NotConstructing {
        return None;
      }
      if wordStartIndex < i {
        if lastValidDigit != i - 1 {
          return Some(SyntaxError(UnknownWord, wordStartIndex, i));
        }
        var value := number as real;
        if decimalPointDepth > 0 {
          ShiftIsDivision(value, decimalPointDepth);
          value := value / Pow10(decimalPointDepth) as real;
        }
        finishedOperations := finishedOperations + [Literal(value, wordStartIndex, i)];
      }
      lastWord := if constructingWord == ConstructingNumber then NumberWord else UnaryOpWord;
      constructingWord := NotConstructing;
      err := None;
    }

    method PushOp(op: Operation) returns (ok: bool)
      modifies this`finishedOperations
      ensures (ok, finishedOperations) == Analyzer.PushOp(op, old(finishedOperations))
    {
      match op {
        case PendingBinary(h, _, _) =>
          if |finishedOperations| < 1 {
            return false;
          }
          var subOp2 := finishedOperations[|finishedOperations| - 1];
          finishedOperations := finishedOperations[..|finishedOperations| - 1];
          if |finishedOperations| < 1 {
            return false;
          }
          var subOp1 := finishedOperations[|finishedOperations| - 1];
          finishedOperations := finishedOperations[..|finishedOperations| - 1];
          finishedOperations := finishedOperations + [Binary(h, subOp1, subOp2, subOp1.startChar, subOp2.endChar)];
        case PendingUnary(h, _, _, start) =>
          if |finishedOperations| < 1 {
            return false;
          }
          var subOp := finishedOperations[|finishedOperations| - 1];
          finishedOperations := finishedOperations[..|finishedOperations| - 1];
          finishedOperations := finishedOperations + [Unary(h, subOp, start, subOp.endChar)];
      }
      ok := true;
    }

    method AddBinaryOperation(layer: int, handler: BinaryHandler, indexForError: int) returns (err: Option<SyntaxError>)
      modifies this`constructingOperations, this`finishedOperations
      ensures AsResult(err, Snapshot()) == Analyzer.AddBinaryOperation(old(Snapshot()), layer, handler, indexForError)
    {
      ghost var s0 := Snapshot();
      ghost var spec := Analyzer.AddBinaryOperation(s0, layer, handler, indexForError);
      if |finishedOperations| < 1 {
        return Some(ErrorAt(EmptyOperation, indexForError));
      }
      if |constructingOperations| >= 1 {
        var beforeOp := constructingOperations[|constructingOperations| - 1];
        if beforeOp.layer > layer || (beforeOp.layer == layer && beforeOp.order >= Order(handler)) {
          constructingOperations := constructingOperations[..|constructingOperations| - 1];
          var ok := PushOp(beforeOp);
          if !ok {
            return Some(ErrorAt(InvalidOperation, indexForError));
          }
          assert spec == Success(s0.(constructingOperations := constructingOperations + [PendingBinary(handler, layer, Order(handler))],
                                     finishedOperations := finishedOperations));
        }
      }
      constructingOperations := constructingOperations + [PendingBinary(handler, layer, Order(handler))];
      err := None;
    }

    /** A digit or a decimal point: ends a word, begins a number. */
    method StartNumber(i: int) returns (err: Option<SyntaxError>)
      modifies this
      ensures AsResult(err, Snapshot()) == NumberStart(old(Snapshot()), i)
    {
      if constructingWord == ConstructingWord {
        err := FinishConstructWord(i);
        if err.Some? {
          return;
        }
      }
      if constructingWord == NotConstructing {
        StartConstructWord(i, ConstructingNumber);
        if lastWord == NumberWord || lastWord == VarNameWord {
          return Some(ErrorAt(TwoNumbersBackToBack, i));
        }
      }
      err := None;
    }

    method OpenBracket(i: int, t: Tables) returns (err: Option<SyntaxError>)
      modifies this
      ensures AsResult(err, Snapshot()) == Analyzer.OpenBracket(old(Snapshot()), i, t)
    {
      ghost var s0 := Snapshot();
      if constructingWord != NotConstructing {
        err := FinishConstructWord(i);
        if err.Some? {
          return;
        }
      }
      ghost var s1 := Snapshot();
      assert s1 == if s0.constructingWord != NotConstructing then Analyzer.FinishConstructWord(s0, i).value else s0;
      if lastWord == NumberWord || lastWord == VarNameWord {
        lastWord := NoWord;
        err := AddBinaryOperation(layer, t.multiplicationHandler, i);
        if err.Some? {
          return;
        }
      }
      layer := layer + 1;
      err := None;
    }

    method CloseBracket(i: int) returns (err: Option<SyntaxError>)
      modifies this
      ensures AsResult(err, Snapshot()) == Analyzer.CloseBracket(old(Snapshot()), i)
    {
      if layer == 0 {
        return Some(ErrorAt(TooManyBackets, i));
      }
      if constructingWord != NotConstructing {
        err := FinishConstructWord(i);
        if err.Some? {
          return;
        }
      }
      if lastWord == NoWord {
        return Some(ErrorAt(EmptyBackets, i));
      }
      layer := layer - 1;
      err := None;
    }

    method OtherCharacter(i: int, c: char, t: Tables) returns (err: Option<SyntaxError>)
      modifies this
      ensures AsResult(err, Snapshot()) == Analyzer.OtherCharacter(old(Snapshot()), i, c, t)
    {
      if constructingWord == ConstructingNumber {
        err := FinishConstructWord(i);
        if err.Some? {
          return;
        }
      }
      var handler := t.symbolToBinaryHandler(c);
      if handler.None? {
        StartConstructWord(i, ConstructingWord);
        return None;
      }
      lastWord := NoWord;
      err := AddBinaryOperation(layer, handler.value, i);
    }

    /** The body of the loop over the line, for character `c` at index `i`. */
    method ConsumeCharacter(i: int, c: char, t: Tables) returns (err: Option<SyntaxError>)
      modifies this
      ensures AsResult(err, Snapshot()) == Step(old(Snapshot()), i, c, t)
    {
      if t.isWhiteSpace(c) {
        err := FinishConstructWord(i);
        return;
      }
      if c == '.' || IsDigit(c) {
        err := StartNumber(i);
        if err.Some? {
          return;
        }
      }
      if c == ',' && constructingWord == ConstructingNumber {
        return None;
      }
      if c == '(' {
        err := OpenBracket(i, t);
      } else if c == ')' {
        err := CloseBracket(i);
      } else if c == '.' {
        if decimalPointDepth != -1 {
          return Some(ErrorAt(TooManyDecimalPoint, i));
        }
        decimalPointDepth := 0;
        err := None;
      } else if IsDigit(c) {
        lastValidDigit := i;
        number := number * 10 + DigitValue(c);
        if decimalPointDepth >= 0 {
          decimalPointDepth := decimalPointDepth + 1;
        }
        err := None;
      } else {
        err := OtherCharacter(i, c, t);
      }
    }

    /** Analyses one line: the tree it reduces to, or the first syntax error. */
    method Analysis(text: string, t: Tables) returns (r: Result<Node>)
      modifies this
      ensures r == Analyzer.Analysis(text, t)
    {
      Reset();
      var err := ScanLine(text, t);
      if err.Some? {
        return Failure(err.value);
      }
      r := EndOfLine(text, t);
    }

    /** Empties both stacks and clears the scan's variables. */
    method Reset()
      modifies this
      ensures Snapshot() == Initial
    {
      constructingOperations := [];
      finishedOperations := [];
      wordStartIndex := 0;
      layer := 0;
      number := 0;
      lastValidDigit := -1;
      decimalPointDepth := -1;
      lastWord := NoWord;
      constructingWord := NotConstructing;
    }

    /** Reads the line character by character, stopping at the first
        error, which is then the error of the whole analysis. */
    method ScanLine(text: string, t: Tables) returns (err: Option<SyntaxError>)
      requires Snapshot() == Initial
      modifies this
      ensures err.None? ==> Scan(text, |text|, t) == Success(Snapshot())
      ensures err.Some? ==> Analyzer.Analysis(text, t) == Failure(err.value)
    {
      for i := 0 to |text|
        invariant Scan(text, i, t) == Success(Snapshot())
      {
        AnalyzerProofs.ScanAdvance(text, i, t, Snapshot());
        err := ConsumeCharacter(i, text[i], t);
        if err.Some? {
          AnalyzerProofs.ScanFailurePersists(text, i + 1, t);
          return;
        }
      }
      err := None;
    }

    /** The end of the line: the last token is finished, the pending
        operators are reduced, and exactly one operand must remain. */
    method EndOfLine(text: string, t: Tables) returns (r: Result<Node>)
      requires Scan(text, |text|, t) == Success(Snapshot())
      modifies this
      ensures r == Analyzer.Analysis(text, t)
    {
      if constructingWord != NotConstructing {
        var err := FinishConstructWord(|text|);
        if err.Some? {
          return Failure(err.value);
        }
      }
      DrainStacks();
      if |finishedOperations| != 1 {
        return Failure(ErrorAt(FinishedOpIsNot1, |text| - 1));
      }
      r := Success(finishedOperations[0]);
      finishedOperations := [];
    }

    /** Pops and reduces pending operators, last in first out, until none is
        left or a reduction finds too few operands. */
    method DrainStacks()
      modifies this`constructingOperations, this`finishedOperations
      ensures finishedOperations == Drain(old(constructingOperations), old(finishedOperations))
      ensures constructingOperations <= old(constructingOperations)
      ensures finishedOperations != [] ==> constructingOperations == []
    {
      ghost var drained := Drain(constructingOperations, finishedOperations);
      var reducing := true;
      while reducing && |constructingOperations| > 0
        invariant reducing ==> Drain(constructingOperations, finishedOperations) == drained
        invariant !reducing ==> finishedOperations == drained == []
        invariant constructingOperations <= old(constructingOperations)
        decreases |constructingOperations|
      {
        var op := constructingOperations[|constructingOperations| - 1];
        constructingOperations := constructingOperations[..|constructingOperations| - 1];
        reducing := PushOp(op);
      }
    }
  }
}
