/** What the analyzer guarantees, proved about the specification in module
    Analyzer: an invariant of the scan, and the theorems it yields about the
    tree a line reduces to and the errors it reports. */
module AnalyzerProofs {
  import opened Handlers
  import opened Syntax
  import opened Analyzer
  import opened Tokens
  import opened ScanState

  /** Once the scan has failed, every longer prefix fails the same way. */
  lemma ScanFailureStays(text: string, n: nat, m: nat, t: Tables)
    requires n <= m <= |text| && Scan(text, n, t).Failure?
    ensures Scan(text, m, t) == Scan(text, n, t)
  {
    var p := (k: nat) => k <= |text| ==> Scan(text, k, t) == Scan(text, n, t);
    forall k | n < k <= m ensures p(k - 1) ==> p(k) {
      FailureCarried(text, n, k, t);
    }
    Chain(p, n, m);
  }

  lemma FailureCarried(text: string, n: nat, k: nat, t: Tables)
    requires n < k <= |text| && Scan(text, n, t).Failure?
    ensures Scan(text, k - 1, t) == Scan(text, n, t) ==> Scan(text, k, t) == Scan(text, n, t)
  {
    if Scan(text, k - 1, t) == Scan(text, n, t) {
      ScanFailureStep(text, k, t);
    }
  }

  lemma ScanFailureStep(text: string, m: nat, t: Tables)
    requires 0 < m <= |text| && Scan(text, m - 1, t).Failure?
    ensures Scan(text, m, t) == Scan(text, m - 1, t)
  {
  }

  /** The first error the loop meets is the error of the whole analysis. */
  lemma ScanFailurePersists(text: string, n: nat, t: Tables)
    requires n <= |text| && Scan(text, n, t).Failure?
    ensures Analysis(text, t) == Failure(Scan(text, n, t).error)
  {
    ScanFailureStays(text, n, |text|, t);
  }

  lemma InitialInv(text: string, t: Tables)
    ensures Inv(text, 0, t, Initial)
  {
  }

  /** A number token ending in a digit becomes a literal that stands for it. */
  lemma FinishNumberLiteral(text: string, i: nat, t: Tables, s: State)
    requires i <= |text| && Inv(text, i, t, s)
    requires s.constructingWord == ConstructingNumber && s.lastValidDigit == i - 1
    ensures FaithfulLiteral(text, t, Literal(LiteralValue(s.number, s.decimalPointDepth), s.wordStartIndex, i))
  {
  }

  /** Pushing a literal that follows the operands keeps them in order. */
  lemma OperandsPushLiteral(text: string, t: Tables, stack: seq<Node>, lit: Node, bound: int)
    requires OperandsOk(text, t, stack, lit.startChar) && FaithfulLiteral(text, t, lit) && lit.endChar <= bound
    ensures OperandsOk(text, t, stack + [lit], bound)
  {
    assert (stack + [lit])[..|stack|] == stack;
  }

  /** The digits before a new literal stay covered, and so do its own. */
  lemma DigitsPushLiteral(text: string, t: Tables, stack: seq<Node>, lit: Node, bound: int)
    requires 0 <= lit.startChar <= bound <= |text| && lit.Literal?
    requires DigitsCovered(text, t, stack, lit.startChar) && lit.endChar == bound
    ensures DigitsCovered(text, t, stack + [lit], bound)
  {
    var stack' := stack + [lit];
    forall k | 0 <= k < bound && IsDigit(text[k]) && !t.isWhiteSpace(text[k])
      ensures Covered(stack', k)
    {
      if k < lit.startChar {
        assert Covered(stack, k);
        var j :| 0 <= j < |stack| && CoveredBy(stack[j], k);
        assert stack'[j] == stack[j];
      } else {
        assert stack'[|stack|] == lit;
      }
    }
  }

  /** Finishing a number token keeps the invariant. */
  lemma FinishNumberPreserves(text: string, i: nat, t: Tables, s: State)
    requires i <= |text| && Inv(text, i, t, s)
    requires s.constructingWord == ConstructingNumber
    requires FinishConstructWord(s, i).Success?
    ensures Inv(text, i, t, FinishConstructWord(s, i).value)
  {
    assert s.wordStartIndex < i && s.lastValidDigit == i - 1;
    var lit := Literal(LiteralValue(s.number, s.decimalPointDepth), s.wordStartIndex, i);
    FinishNumberLiteral(text, i, t, s);
    var f := s.finishedOperations;
    OperandsPushLiteral(text, t, f, lit, i);
    DigitsPushLiteral(text, t, f, lit, i);
    var s' := s.(finishedOperations := f + [lit], lastWord := NumberWord, constructingWord := NotConstructing);
    assert FinishConstructWord(s, i).value == s';
    NumberFinished(text, i, t, s, s');
  }

  /** A state whose number token has gone onto the operand stack. */
  lemma NumberFinished(text: string, i: nat, t: Tables, s: State, s': State)
    requires i <= |text| && Inv(text, i, t, s)
    requires s'.layer == s.layer && s'.constructingOperations == s.constructingOperations
    requires s'.constructingWord == NotConstructing && s'.lastWord == NumberWord
    requires StacksOk(text, t, s'.constructingOperations, s'.finishedOperations, i)
    ensures Inv(text, i, t, s')
  {
  }

  /** Finishing the token in progress keeps the invariant, and a word never
      finishes. */
  lemma FinishPreserves(text: string, i: nat, t: Tables, s: State)
    requires i <= |text| && Inv(text, i, t, s)
    requires FinishConstructWord(s, i).Success?
    ensures var s' := FinishConstructWord(s, i).value;
      && Inv(text, i, t, s')
      && s.constructingWord != ConstructingWord
      && s'.layer == s.layer && s'.constructingOperations == s.constructingOperations
      && (s.constructingWord == NotConstructing ==> s' == s)
      && (s.constructingWord == ConstructingNumber ==> s'.lastWord == NumberWord)
  {
    if s.constructingWord == ConstructingNumber {
      FinishNumberPreserves(text, i, t, s);
    }
  }

  /** Moving past a character that neither belongs to a number nor is a digit
      keeps the invariant, with the layer following the brackets. */
  lemma AdvancePreserves(text: string, i: nat, t: Tables, s: State, s': State)
    requires i < |text| && Inv(text, i, t, s)
    requires s.constructingWord != ConstructingNumber
    requires !(IsDigit(text[i]) && !t.isWhiteSpace(text[i]))
    requires 0 <= s.layer + BracketDelta(text[i], t)
    requires s' == s.(layer := s.layer + BracketDelta(text[i], t))
    ensures Inv(text, i + 1, t, s')
  {
    StacksGrow(text, t, s.constructingOperations, s.finishedOperations, Bound(s, i), Bound(s', i + 1));
  }

  /** Reducing a pending binary operator keeps the operands well formed. */
  lemma PushOpPreserves(text: string, t: Tables, op: Operation, stack: seq<Node>, bound: int)
    requires op.PendingBinary? && OperandsOk(text, t, stack, bound)
    requires PushOp(op, stack).0
    ensures OperandsOk(text, t, PushOp(op, stack).1, bound)
  {
    var n := |stack|;
    var left := stack[n - 2];
    var right := stack[n - 1];
    var below := stack[..n - 2];
    var node := Binary(op.handler, left, right, left.startChar, right.endChar);
    assert stack[..n - 1][..n - 2] == below;
    assert PushOp(op, stack).1 == below + [node];
    assert (below + [node])[..n - 2] == below;
  }

  /** Reducing a pending binary operator keeps every digit covered: the
      literals of its two operands become those of the new node. */
  lemma PushOpKeepsDigits(text: string, t: Tables, op: Operation, stack: seq<Node>, bound: int)
    requires bound <= |text| && op.PendingBinary? && PushOp(op, stack).0
    requires DigitsCovered(text, t, stack, bound)
    ensures DigitsCovered(text, t, PushOp(op, stack).1, bound)
  {
    var n := |stack|;
    var stack' := PushOp(op, stack).1;
    assert stack'[n - 2] == Binary(op.handler, stack[n - 2], stack[n - 1], stack[n - 2].startChar, stack[n - 1].endChar);
    forall k | 0 <= k < bound && IsDigit(text[k]) && !t.isWhiteSpace(text[k])
      ensures Covered(stack', k)
    {
      assert Covered(stack, k);
      var j :| 0 <= j < n && CoveredBy(stack[j], k);
      if j < n - 2 {
        assert stack'[j] == stack[..n - 2][j] == stack[j];
      } else {
        assert CoveredBy(stack'[n - 2], k);
      }
    }
  }

  /** New stacks with well-formed operands covering every digit and only
      binary operators pending keep the invariant. */
  lemma ReplaceStacksPreserves(text: string, i: nat, t: Tables, s: State, p: seq<Operation>, f: seq<Node>)
    requires i <= |text| && Inv(text, i, t, s)
    requires AllBinary(p)
    requires OperandsOk(text, t, f, Bound(s, i)) && DigitsCovered(text, t, f, Bound(s, i))
    ensures Inv(text, i, t, s.(constructingOperations := p, finishedOperations := f))
  {
  }

  /** Pushing a binary operator onto a stack of binary operators, possibly
      after popping one. */
  lemma PendingStaysBinary(pending: seq<Operation>, p: seq<Operation>)
    requires AllBinary(pending)
    requires |p| >= 1 && p[|p| - 1].PendingBinary? && p[..|p| - 1] <= pending
    ensures AllBinary(p)
  {
    AllBinaryPrefix(pending, |p| - 1);
    assert pending[..|p| - 1] == p[..|p| - 1];
  }

  lemma AddBinaryPreserves(text: string, i: nat, t: Tables, s: State, layer: int, h: BinaryHandler)
    requires i <= |text| && Inv(text, i, t, s)
    requires AddBinaryOperation(s, layer, h, i).Success?
    ensures var s' := AddBinaryOperation(s, layer, h, i).value;
      Inv(text, i, t, s') && s'.lastWord == s.lastWord && s'.layer == s.layer
  {
    var s' := AddBinaryOperation(s, layer, h, i).value;
    var pending := s.constructingOperations;
    var f := s.finishedOperations;
    var f' := s'.finishedOperations;
    AddBinaryRule(s, layer, h, i);
    if |pending| >= 1 && Reduces(pending[|pending| - 1], layer, Order(h)) {
      var top := pending[|pending| - 1];
      assert top.PendingBinary? by { AllBinaryPrefix(pending, |pending|); }
      assert PushOp(top, f).0 && f' == PushOp(top, f).1;
      PushOpPreserves(text, t, top, f, Bound(s, i));
      PushOpKeepsDigits(text, t, top, f, Bound(s, i));
    } else {
      assert f' == f;
    }
    assert OperandsOk(text, t, f', Bound(s, i)) && DigitsCovered(text, t, f', Bound(s, i));
    PendingStaysBinary(pending, s'.constructingOperations);
    ReplaceStacksPreserves(text, i, t, s, s'.constructingOperations, f');
  }

  /** A digit or point that begins a number. */
  lemma BeginNumberPreserves(text: string, i: nat, t: Tables, s: State)
    requires i < |text| && Inv(text, i, t, s)
    requires s.constructingWord == NotConstructing
    requires (IsDigit(text[i]) || text[i] == '.') && !t.isWhiteSpace(text[i])
    ensures var c := text[i];
      var s2 := StartConstructWord(s, i, ConstructingNumber);
      var s' := if c == '.' then s2.(decimalPointDepth := 0) else Digit(s2, i, c);
      Inv(text, i + 1, t, s')
  {
  }

  /** A digit, point or comma that continues a number. */
  lemma ContinueNumberPreserves(text: string, i: nat, t: Tables, s: State)
    requires i < |text| && Inv(text, i, t, s)
    requires s.constructingWord == ConstructingNumber
    requires IsNumberChar(text[i]) && !t.isWhiteSpace(text[i])
    requires text[i] == '.' ==> s.decimalPointDepth == -1
    ensures var c := text[i];
      var s' := if c == '.' then s.(decimalPointDepth := 0) else if c == ',' then s else Digit(s, i, c);
      Inv(text, i + 1, t, s')
  {
  }

  lemma WhitespacePreserves(text: string, i: nat, t: Tables, s: State)
    requires i < |text| && Inv(text, i, t, s) && t.isWhiteSpace(text[i])
    requires FinishConstructWord(s, i).Success?
    ensures Inv(text, i + 1, t, FinishConstructWord(s, i).value)
  {
    FinishPreserves(text, i, t, s);
    var s1 := FinishConstructWord(s, i).value;
    assert BracketDelta(text[i], t) == 0;
    AdvancePreserves(text, i, t, s1, s1);
  }

  lemma NumberCharPreserves(text: string, i: nat, t: Tables, s: State)
    requires i < |text| && Inv(text, i, t, s)
    requires (IsDigit(text[i]) || text[i] == '.') && !t.isWhiteSpace(text[i])
    requires Step(s, i, text[i], t).Success?
    ensures Inv(text, i + 1, t, Step(s, i, text[i], t).value)
  {
    var c := text[i];
    assert NumberStart(s, i).Success?;
    var s1 := NumberStart(s, i).value;
    assert Step(s, i, c, t) == if c == '.' then DecimalPoint(s1, i) else Success(Digit(s1, i, c));
    if s.constructingWord == NotConstructing {
      assert s1 == StartConstructWord(s, i, ConstructingNumber);
      BeginNumberPreserves(text, i, t, s);
    } else if s.constructingWord == ConstructingNumber {
      assert s1 == s;
      ContinueNumberPreserves(text, i, t, s);
    }
  }

  /** How OpenBracket decomposes once it has succeeded. */
  lemma OpenBracketShape(s: State, i: int, t: Tables)
    requires OpenBracket(s, i, t).Success?
    ensures var r1 := if s.constructingWord != NotConstructing then FinishConstructWord(s, i) else Success(s);
      && r1.Success?
      && var s1 := r1.value;
         var r2 := if s1.lastWord == NumberWord || s1.lastWord == VarNameWord
           then AddBinaryOperation(s1.(lastWord := NoWord), s1.layer, t.multiplicationHandler, i)
           else Success(s1);
         && r2.Success?
         && OpenBracket(s, i, t) == Success(r2.value.(layer := r2.value.layer + 1))
  {
  }

  /** The implicit multiplication before an opening bracket keeps the
      invariant. */
  lemma ImplicitProductPreserves(text: string, i: nat, t: Tables, s1: State)
    requires i < |text| && Inv(text, i, t, s1) && s1.constructingWord == NotConstructing
    requires var r2 := if s1.lastWord == NumberWord || s1.lastWord == VarNameWord
           then AddBinaryOperation(s1.(lastWord := NoWord), s1.layer, t.multiplicationHandler, i)
           else Success(s1);
      r2.Success?
    ensures var r2 := if s1.lastWord == NumberWord || s1.lastWord == VarNameWord
           then AddBinaryOperation(s1.(lastWord := NoWord), s1.layer, t.multiplicationHandler, i)
           else Success(s1);
      && Inv(text, i, t, r2.value) && r2.value.constructingWord == NotConstructing
      && r2.value.layer == s1.layer
  {
    if s1.lastWord == NumberWord || s1.lastWord == VarNameWord {
      AddBinaryPreserves(text, i, t, s1.(lastWord := NoWord), s1.layer, t.multiplicationHandler);
    }
  }

  lemma OpenBracketPreserves(text: string, i: nat, t: Tables, s: State)
    requires i < |text| && Inv(text, i, t, s) && text[i] == '(' && !t.isWhiteSpace(text[i])
    requires OpenBracket(s, i, t).Success?
    ensures Inv(text, i + 1, t, OpenBracket(s, i, t).value)
  {
    OpenBracketShape(s, i, t);
    SettlePreserves(text, i, t, s);
    var s1 := (if s.constructingWord != NotConstructing then FinishConstructWord(s, i) else Success(s)).value;
    ImplicitProductPreserves(text, i, t, s1);
    var s2 := (if s1.lastWord == NumberWord || s1.lastWord == VarNameWord
      then AddBinaryOperation(s1.(lastWord := NoWord), s1.layer, t.multiplicationHandler, i)
      else Success(s1)).value;
    assert BracketDelta(text[i], t) == 1;
    AdvancePreserves(text, i, t, s2, OpenBracket(s, i, t).value);
  }

  /** The token in progress, if any, is finished before a bracket. */
  lemma SettlePreserves(text: string, i: nat, t: Tables, s: State)
    requires i <= |text| && Inv(text, i, t, s)
    requires (if s.constructingWord != NotConstructing then FinishConstructWord(s, i) else Success(s)).Success?
    ensures var s1 := (if s.constructingWord != NotConstructing then FinishConstructWord(s, i) else Success(s)).value;
      && Inv(text, i, t, s1) && s1.constructingWord == NotConstructing
      && s1.layer == s.layer
  {
    if s.constructingWord != NotConstructing {
      FinishPreserves(text, i, t, s);
    }
  }

  /** How CloseBracket decomposes once it has succeeded. */
  lemma CloseBracketShape(s: State, i: int)
    requires CloseBracket(s, i).Success?
    ensures var r1 := if s.constructingWord != NotConstructing then FinishConstructWord(s, i) else Success(s);
      && r1.Success? && s.layer != 0
      && CloseBracket(s, i) == Success(r1.value.(layer := r1.value.layer - 1))
  {
  }

  lemma CloseBracketPreserves(text: string, i: nat, t: Tables, s: State)
    requires i < |text| && Inv(text, i, t, s) && text[i] == ')' && !t.isWhiteSpace(text[i])
    requires CloseBracket(s, i).Success?
    ensures Inv(text, i + 1, t, CloseBracket(s, i).value)
  {
    CloseBracketShape(s, i);
    SettlePreserves(text, i, t, s);
    var s1 := (if s.constructingWord != NotConstructing then FinishConstructWord(s, i) else Success(s)).value;
    assert BracketDelta(text[i], t) == -1;
    AdvancePreserves(text, i, t, s1, CloseBracket(s, i).value);
  }

  /** A character with no binary handler begins a word. */
  lemma WordStartPreserves(text: string, i: nat, t: Tables, s: State)
    requires i < |text| && Inv(text, i, t, s) && s.constructingWord == NotConstructing
    requires BracketDelta(text[i], t) == 0
    ensures Inv(text, i + 1, t, StartConstructWord(s, i, ConstructingWord))
  {
  }

  /** How OtherCharacter decomposes once it has succeeded. */
  lemma OtherCharacterShape(s: State, i: int, c: char, t: Tables)
    requires OtherCharacter(s, i, c, t).Success?
    ensures var r1 := if s.constructingWord == ConstructingNumber then FinishConstructWord(s, i) else Success(s);
      && r1.Success?
      && OtherCharacter(s, i, c, t) ==
        match t.symbolToBinaryHandler(c)
        case None => Success(StartConstructWord(r1.value, i, ConstructingWord))
        case Some(h) => AddBinaryOperation(r1.value.(lastWord := NoWord), r1.value.layer, h, i)
  {
  }

  /** Any other character, once no number is in progress. */
  lemma OtherCharacterSettledPreserves(text: string, i: nat, t: Tables, s: State)
    requires i < |text| && Inv(text, i, t, s) && s.constructingWord != ConstructingNumber
    requires BracketDelta(text[i], t) == 0 && !IsDigit(text[i])
    requires OtherCharacter(s, i, text[i], t).Success?
    ensures Inv(text, i + 1, t, OtherCharacter(s, i, text[i], t).value)
  {
    var c := text[i];
    OtherCharacterShape(s, i, c, t);
    match t.symbolToBinaryHandler(c)
    case None =>
      if s.constructingWord == NotConstructing {
        WordStartPreserves(text, i, t, s);
      } else {
        AdvancePreserves(text, i, t, s, OtherCharacter(s, i, c, t).value);
      }
    case Some(h) =>
      OperatorPreserves(text, i, t, s, h);
  }

  /** A binary operator symbol, once no number is in progress. */
  lemma OperatorPreserves(text: string, i: nat, t: Tables, s: State, h: BinaryHandler)
    requires i < |text| && Inv(text, i, t, s) && s.constructingWord != ConstructingNumber
    requires BracketDelta(text[i], t) == 0 && !IsDigit(text[i])
    requires AddBinaryOperation(s.(lastWord := NoWord), s.layer, h, i).Success?
    ensures Inv(text, i + 1, t, AddBinaryOperation(s.(lastWord := NoWord), s.layer, h, i).value)
  {
    var s2 := AddBinaryOperation(s.(lastWord := NoWord), s.layer, h, i).value;
    AddBinaryPreserves(text, i, t, s.(lastWord := NoWord), s.layer, h);
    AdvancePreserves(text, i, t, s2, s2);
  }

  lemma OtherCharacterPreserves(text: string, i: nat, t: Tables, s: State)
    requires i < |text| && Inv(text, i, t, s)
    requires text[i] != '(' && text[i] != ')' && !t.isWhiteSpace(text[i])
    requires !IsDigit(text[i])
    requires OtherCharacter(s, i, text[i], t).Success?
    ensures Inv(text, i + 1, t, OtherCharacter(s, i, text[i], t).value)
  {
    var c := text[i];
    OtherCharacterShape(s, i, c, t);
    if s.constructingWord == ConstructingNumber {
      FinishPreserves(text, i, t, s);
      var s1 := FinishConstructWord(s, i).value;
      OtherCharacterShape(s1, i, c, t);
      assert OtherCharacter(s, i, c, t) == OtherCharacter(s1, i, c, t);
      OtherCharacterSettledPreserves(text, i, t, s1);
    } else {
      OtherCharacterSettledPreserves(text, i, t, s);
    }
  }

  /** One turn of the loop keeps the invariant. */
  lemma StepPreserves(text: string, i: nat, t: Tables, s: State)
    requires i < |text| && Inv(text, i, t, s)
    requires Step(s, i, text[i], t).Success?
    ensures Inv(text, i + 1, t, Step(s, i, text[i], t).value)
  {
    var c := text[i];
    if t.isWhiteSpace(c) {
      assert Step(s, i, c, t) == FinishConstructWord(s, i);
      WhitespacePreserves(text, i, t, s);
    } else if c == '.' || IsDigit(c) {
      NumberCharPreserves(text, i, t, s);
    } else if c == ',' && s.constructingWord == ConstructingNumber {
      ContinueNumberPreserves(text, i, t, s);
    } else if c == '(' {
      OpenBracketPreserves(text, i, t, s);
    } else if c == ')' {
      CloseBracketPreserves(text, i, t, s);
    } else {
      OtherCharacterPreserves(text, i, t, s);
    }
  }

  /** Every state the scan reaches satisfies the invariant. */
  lemma {:induction false} ScanInvariant(text: string, n: nat, t: Tables)
    requires n <= |text| && Scan(text, n, t).Success?
    ensures Inv(text, n, t, Scan(text, n, t).value)
  {
    if n == 0 {
      InitialInv(text, t);
    } else {
      ScanInvariant(text, n - 1, t);
      StepPreserves(text, n - 1, t, Scan(text, n - 1, t).value);
    }
  }

  /** End-of-line reduction keeps the operands well formed and, unless a
      reduction fails, every digit covered. */
  lemma {:induction false} DrainPreserves(text: string, t: Tables, pending: seq<Operation>, finished: seq<Node>, bound: int)
    requires bound <= |text| && AllBinary(pending)
    requires OperandsOk(text, t, finished, bound) && DigitsCovered(text, t, finished, bound)
    ensures OperandsOk(text, t, Drain(pending, finished), bound)
    ensures Drain(pending, finished) != [] ==> DigitsCovered(text, t, Drain(pending, finished), bound)
  {
    if pending != [] {
      var op := pending[|pending| - 1];
      var reduced := PushOp(op, finished);
      if reduced.0 {
        PushOpPreserves(text, t, op, finished, bound);
        PushOpKeepsDigits(text, t, op, finished, bound);
        DrainPreserves(text, t, pending[..|pending| - 1], reduced.1, bound);
      }
    }
  }

  /** The stack of finished operations the analysis ends with, once the
      last token is finished and the pending operators are drained: one
      well-formed tree covering every digit. */
  lemma EndStack(text: string, t: Tables) returns (f: seq<Node>)
    requires Analysis(text, t).Success?
    ensures |f| == 1 && Analysis(text, t).value == f[0]
    ensures OperandsOk(text, t, f, |text|) && DigitsCovered(text, t, f, |text|)
  {
    var s := Scan(text, |text|, t).value;
    ScanInvariant(text, |text|, t);
    var s1 := s;
    if s.constructingWord != NotConstructing {
      FinishPreserves(text, |text|, t, s);
      s1 := FinishConstructWord(s, |text|).value;
    }
    DrainPreserves(text, t, s1.constructingOperations, s1.finishedOperations, |text|);
    f := Drain(s1.constructingOperations, s1.finishedOperations);
  }

  /** A well-formed tree without unary nodes has at least one literal and a
      span that is not empty. */
  lemma {:induction false} TreeSpan(n: Node)
    requires NoUnary(n) && WellFormed(n)
    ensures n.startChar < n.endChar && |Leaves(n)| > 0
  {
    match n
    case Literal(_, _, _) =>
    case Binary(_, left, right, _, _) =>
      TreeSpan(left);
      TreeSpan(right);
  }

  /** The literal at index `j` of a tree stands for its token and lies
      inside the tree's span. */
  lemma {:induction false} LeafOfTree(text: string, t: Tables, n: Node, j: int)
    requires NoUnary(n) && WellFormed(n) && LiteralsFaithful(text, t, n)
    requires 0 <= j < |Leaves(n)|
    ensures FaithfulLiteral(text, t, Leaves(n)[j])
    ensures n.startChar <= Leaves(n)[j].startChar && Leaves(n)[j].endChar <= n.endChar
  {
    match n
    case Literal(_, _, _) =>
      assert Leaves(n) == [n];
    case Binary(_, left, right, _, _) =>
      var l := Leaves(left);
      assert Leaves(n) == l + Leaves(right);
      TreeSpan(left);
      TreeSpan(right);
      if j < |l| {
        LeafOfTree(text, t, left, j);
      } else {
        LeafOfTree(text, t, right, j - |l|);
        assert Leaves(n)[j] == Leaves(right)[j - |l|];
      }
  }

  /** Consecutive literals of a tree come left to right without
      overlapping. */
  lemma {:induction false} LeavesInOrder(text: string, t: Tables, n: Node, j: int)
    requires NoUnary(n) && WellFormed(n) && LiteralsFaithful(text, t, n)
    requires 0 <= j < |Leaves(n)| - 1
    ensures Leaves(n)[j].endChar <= Leaves(n)[j + 1].startChar
  {
    match n
    case Literal(_, _, _) =>
    case Binary(_, left, right, _, _) =>
      var l := Leaves(left);
      var r := Leaves(right);
      assert Leaves(n) == l + r;
      if j < |l| - 1 {
        LeavesInOrder(text, t, left, j);
      } else if j == |l| - 1 {
        LeafOfTree(text, t, left, j);
        LeafOfTree(text, t, right, 0);
      } else {
        LeavesInOrder(text, t, right, j - |l|);
      }
  }

  /** What a well-formed tree says about its literals: each stands for its
      token, lies inside the tree's span, and they come left to right without
      overlapping. */
  lemma TreeLiterals(text: string, t: Tables, n: Node)
    requires NoUnary(n) && WellFormed(n) && LiteralsFaithful(text, t, n)
    ensures n.startChar < n.endChar
    ensures var leaves := Leaves(n);
      && (forall j :: 0 <= j < |leaves| ==>
            FaithfulLiteral(text, t, leaves[j]) && n.startChar <= leaves[j].startChar && leaves[j].endChar <= n.endChar)
      && (forall j :: 0 <= j < |leaves| - 1 ==> leaves[j].endChar <= leaves[j + 1].startChar)
  {
    TreeSpan(n);
    forall j | 0 <= j < |Leaves(n)|
      ensures FaithfulLiteral(text, t, Leaves(n)[j]) && n.startChar <= Leaves(n)[j].startChar && Leaves(n)[j].endChar <= n.endChar
    {
      LeafOfTree(text, t, n, j);
    }
    forall j | 0 <= j < |Leaves(n)| - 1
      ensures Leaves(n)[j].endChar <= Leaves(n)[j + 1].startChar
    {
      LeavesInOrder(text, t, n, j);
    }
  }

  /** A position inside a literal of a tree lies inside one of its leaves. */
  lemma {:induction false} CoveredByLeaf(n: Node, k: int)
    requires CoveredBy(n, k)
    ensures exists j :: 0 <= j < |Leaves(n)| && Leaves(n)[j].startChar <= k < Leaves(n)[j].endChar
  {
    match n
    case Literal(_, _, _) =>
      assert Leaves(n) == [n];
      assert Leaves(n)[0].startChar <= k < Leaves(n)[0].endChar;
    case Unary(_, inside, _, _) =>
      CoveredByLeaf(inside, k);
      assert Leaves(n) == Leaves(inside);
    case Binary(_, left, right, _, _) =>
      var l := Leaves(left);
      var r := Leaves(right);
      assert Leaves(n) == l + r;
      if CoveredBy(left, k) {
        CoveredByLeaf(left, k);
        var j :| 0 <= j < |l| && l[j].startChar <= k < l[j].endChar;
        assert (l + r)[j] == l[j];
      } else {
        CoveredByLeaf(right, k);
        var j :| 0 <= j < |r| && r[j].startChar <= k < r[j].endChar;
        assert (l + r)[|l| + j] == r[j];
      }
  }

  /** A successful analysis yields a tree of literals and binary operators
      whose spans nest inside the line. */
  lemma AnalysisTreeShape(text: string, t: Tables)
    requires Analysis(text, t).Success?
    ensures var n := Analysis(text, t).value;
      NoUnary(n) && WellFormed(n) && 0 <= n.startChar && n.endChar <= |text|
  {
    FinalTree(text, t);
  }

  /** The facts the invariant leaves about the tree of a successful
      analysis. */
  lemma FinalTree(text: string, t: Tables)
    requires Analysis(text, t).Success?
    ensures var n := Analysis(text, t).value;
      && NoUnary(n) && WellFormed(n) && LiteralsFaithful(text, t, n)
      && 0 <= n.startChar && n.endChar <= |text|
      && forall k :: 0 <= k < |text| && IsDigit(text[k]) && !t.isWhiteSpace(text[k]) ==> CoveredBy(n, k)
  {
    var f := EndStack(text, t);
    SingleOperand(text, t, f);
  }

  /** A stack holding one operand: what the stack invariant says about it. */
  lemma SingleOperand(text: string, t: Tables, f: seq<Node>)
    requires |f| == 1 && OperandsOk(text, t, f, |text|) && DigitsCovered(text, t, f, |text|)
    ensures var n := f[0];
      && NoUnary(n) && WellFormed(n) && LiteralsFaithful(text, t, n)
      && 0 <= n.startChar && n.endChar <= |text|
      && forall k :: 0 <= k < |text| && IsDigit(text[k]) && !t.isWhiteSpace(text[k]) ==> CoveredBy(n, k)
  {
    assert f[..0] == [];
    forall k | 0 <= k < |text| && IsDigit(text[k]) && !t.isWhiteSpace(text[k])
      ensures CoveredBy(f[0], k)
    {
      assert Covered(f, k);
    }
  }

  /** A literal that stands for a number token of the line: the characters
      it spans form a complete number token, and it carries the value that
      token denotes. */
  ghost predicate StandsForToken(text: string, t: Tables, n: Node)
  {
    && n.Literal?
    && 0 <= n.startChar < n.endChar <= |text|
    && IsNumberToken(text[n.startChar..n.endChar], t)
    && n.value == TokenValue(text[n.startChar..n.endChar])
  }

  /** The literal the analyzer computes in place is the token's value. */
  lemma FaithfulStandsForToken(text: string, t: Tables, n: Node)
    requires FaithfulLiteral(text, t, n)
    ensures StandsForToken(text, t, n)
  {
    var tok := text[n.startChar..n.endChar];
    SpanAgrees(text, n.startChar, n.endChar, t);
    assert tok[|tok| - 1] == text[n.endChar - 1];
    if PointDepth(tok) <= 0 {
      assert FractionDigits(tok) == 0;
    } else {
      ShiftIsDivision(SpanMantissa(text, n.startChar, n.endChar) as real, PointDepth(tok));
    }
  }

  /** Every literal of the tree is a number token of the line, carries the
      value that token denotes, and the literals appear in the order of the
      line without overlapping. */
  lemma AnalysisLiteralValues(text: string, t: Tables)
    requires Analysis(text, t).Success?
    ensures var leaves := Leaves(Analysis(text, t).value);
      && (forall j :: 0 <= j < |leaves| ==> StandsForToken(text, t, leaves[j]))
      && (forall j :: 0 <= j < |leaves| - 1 ==> leaves[j].endChar <= leaves[j + 1].startChar)
  {
    FinalTree(text, t);
    var n := Analysis(text, t).value;
    TreeLiterals(text, t, n);
    var leaves := Leaves(n);
    forall j | 0 <= j < |leaves|
      ensures StandsForToken(text, t, leaves[j])
    {
      FaithfulStandsForToken(text, t, leaves[j]);
    }
  }

  /** No digit of the line is dropped: each lies inside a literal of the
      tree. */
  lemma AnalysisKeepsEveryDigit(text: string, t: Tables)
    requires Analysis(text, t).Success?
    ensures forall k :: 0 <= k < |text| && IsDigit(text[k]) && !t.isWhiteSpace(text[k]) ==>
      InSomeLeaf(Leaves(Analysis(text, t).value), k)
  {
    FinalTree(text, t);
    var n := Analysis(text, t).value;
    forall k | 0 <= k < |text| && IsDigit(text[k]) && !t.isWhiteSpace(text[k])
      ensures InSomeLeaf(Leaves(n), k)
    {
      CoveredByLeaf(n, k);
    }
  }

  /** Position `k` lies inside one of the literals `leaves`. */
  ghost predicate InSomeLeaf(leaves: seq<Node>, k: int)
  {
    exists j :: 0 <= j < |leaves| && leaves[j].startChar <= k < leaves[j].endChar
  }

  /** The messages of the errors thrown for a single character. */
  const CharacterMessages: set<string> :=
    {TooManyBackets, EmptyOperation, InvalidOperation, TwoNumbersBackToBack, EmptyBackets, TooManyDecimalPoint}

  /** An error thrown while reading the character at `i`: an unknown word
      ending there, or a one-character error at `i`. */
  ghost predicate ErrorAtCharacter(e: SyntaxError, i: int)
  {
    || (e.message == UnknownWord && 0 <= e.startIndex < e.endIndex == i)
    || (e.message in CharacterMessages && e == ErrorAt(e.message, i))
  }

  lemma FinishErrorSpan(text: string, i: nat, t: Tables, s: State)
    requires i <= |text| && Inv(text, i, t, s)
    requires FinishConstructWord(s, i).Failure?
    ensures ErrorAtCharacter(FinishConstructWord(s, i).error, i)
  {
  }

  lemma AddBinaryErrorSpan(s: State, layer: int, h: BinaryHandler, i: int)
    ensures AddBinaryOperation(s, layer, h, i).Failure? ==> ErrorAtCharacter(AddBinaryOperation(s, layer, h, i).error, i)
  {
  }

  /** Completing the current token fails, if at all, at character `i`. */
  ghost predicate FinishFailsAt(s: State, i: int)
  {
    FinishConstructWord(s, i).Failure? ==> ErrorAtCharacter(FinishConstructWord(s, i).error, i)
  }

  /** A turn of the loop that fails reports an error at that character. */
  lemma StepErrorSpan(text: string, i: nat, t: Tables, s: State)
    requires i < |text| && Inv(text, i, t, s)
    requires Step(s, i, text[i], t).Failure?
    ensures ErrorAtCharacter(Step(s, i, text[i], t).error, i)
  {
    if FinishConstructWord(s, i).Failure? {
      FinishErrorSpan(text, i, t, s);
    }
    StateStepErrorSpan(s, i, text[i], t);
  }

  lemma StateStepErrorSpan(s: State, i: int, c: char, t: Tables)
    requires FinishFailsAt(s, i)
    ensures Step(s, i, c, t).Failure? ==> ErrorAtCharacter(Step(s, i, c, t).error, i)
  {
    if t.isWhiteSpace(c) {
    } else if c == '.' || IsDigit(c) {
    } else if c == '(' {
      var r1 := if s.constructingWord != NotConstructing then FinishConstructWord(s, i) else Success(s);
      if r1.Success? && (r1.value.lastWord == NumberWord || r1.value.lastWord == VarNameWord) {
        AddBinaryErrorSpan(r1.value.(lastWord := NoWord), r1.value.layer, t.multiplicationHandler, i);
      }
    } else if c == ')' || c == ',' {
    } else {
      var r1 := if s.constructingWord == ConstructingNumber then FinishConstructWord(s, i) else Success(s);
      if r1.Success? && t.symbolToBinaryHandler(c).Some? {
        AddBinaryErrorSpan(r1.value.(lastWord := NoWord), r1.value.layer, t.symbolToBinaryHandler(c).value, i);
      }
    }
  }

  /** The errors an analysis can report: an unknown word inside the line, a
      one-character error at a character of the line, or the end-of-line
      error on the last character. */
  ghost predicate ReportedError(text: string, e: SyntaxError)
  {
    || (e.message == UnknownWord && 0 <= e.startIndex < e.endIndex <= |text|)
    || (e.message in CharacterMessages && 0 <= e.startIndex < |text| && e == ErrorAt(e.message, e.startIndex))
    || e == ErrorAt(FinishedOpIsNot1, |text| - 1)
  }

  lemma {:induction false} ScanErrorSpan(text: string, n: nat, t: Tables)
    requires n <= |text| && Scan(text, n, t).Failure?
    ensures exists i :: 0 <= i < n && ErrorAtCharacter(Scan(text, n, t).error, i)
  {
    if Scan(text, n - 1, t).Failure? {
      ScanErrorSpan(text, n - 1, t);
      ScanFailureStep(text, n, t);
    } else {
      ScanUnfold(text, n, t);
      ScanInvariant(text, n - 1, t);
      StepErrorSpan(text, n - 1, t, Scan(text, n - 1, t).value);
      assert ErrorAtCharacter(Scan(text, n, t).error, n - 1);
    }
  }

  /** Every error the analysis reports is one of the kinds above. */
  lemma AnalysisErrorSpan(text: string, t: Tables)
    requires Analysis(text, t).Failure?
    ensures ReportedError(text, Analysis(text, t).error)
  {
    if Scan(text, |text|, t).Failure? {
      ScanErrorSpan(text, |text|, t);
    } else {
      var s := Scan(text, |text|, t).value;
      ScanInvariant(text, |text|, t);
      if s.constructingWord != NotConstructing && FinishConstructWord(s, |text|).Failure? {
        FinishErrorSpan(text, |text|, t, s);
      }
    }
  }

  /** The scan reaches every prefix of a line whose analysis succeeds. */
  lemma ScanSucceedsBefore(text: string, n: nat, t: Tables)
    requires n <= |text| && Analysis(text, t).Success?
    ensures Scan(text, n, t).Success?
  {
    if Scan(text, n, t).Failure? {
      ScanFailurePersists(text, n, t);
    }
  }

  /** The layer is the bracket depth of the prefix read so far. */
  lemma LayerTracksBrackets(text: string, n: nat, t: Tables)
    requires n <= |text| && Scan(text, n, t).Success?
    ensures Scan(text, n, t).value.layer == Balance(text, n, t) >= 0
  {
    ScanInvariant(text, n, t);
  }

  /** A line that is analysed never closes more brackets than it opened
      (it may leave some open). */
  lemma AnalysisBracketsNeverNegative(text: string, t: Tables)
    requires Analysis(text, t).Success?
    ensures forall n :: 0 <= n <= |text| ==> Balance(text, n, t) >= 0
  {
    forall n | 0 <= n <= |text|
      ensures Balance(text, n, t) >= 0
    {
      ScanSucceedsBefore(text, n, t);
      LayerTracksBrackets(text, n, t);
    }
  }

  /** One more character read from a state the scan has reached. */
  lemma ScanAdvance(text: string, i: nat, t: Tables, s: State)
    requires i < |text| && Scan(text, i, t) == Success(s)
    ensures Scan(text, i + 1, t) == Step(s, i, text[i], t)
  {
  }

  /** One turn of the scan, unfolded. */
  lemma ScanUnfold(text: string, n: nat, t: Tables)
    requires 0 < n <= |text|
    ensures Scan(text, n, t).Success? ==> Scan(text, n - 1, t).Success?
    ensures Scan(text, n - 1, t).Success? ==>
      Scan(text, n, t) == Step(Scan(text, n - 1, t).value, n - 1, text[n - 1], t)
  {
  }

  /** A closing bracket at layer zero. */
  lemma CloseAtLayerZero(s: State, i: int, t: Tables)
    requires s.layer == 0 && !t.isWhiteSpace(')')
    ensures Step(s, i, ')', t) == Failure(ErrorAt(TooManyBackets, i))
  {
  }

  /** A closing bracket with no operand read in its layer. */
  lemma CloseWithoutOperand(s: State, i: int, t: Tables)
    requires s.layer >= 1 && s.constructingWord == NotConstructing && s.lastWord == NoWord
    requires !t.isWhiteSpace(')')
    ensures Step(s, i, ')', t) == Failure(ErrorAt(EmptyBackets, i))
  {
  }

  /** A closing bracket with no open bracket before it is reported at that
      bracket. */
  lemma UnmatchedCloseReported(text: string, i: nat, t: Tables)
    requires i < |text| && text[i] == ')' && !t.isWhiteSpace(text[i])
    requires Scan(text, i, t).Success? && Balance(text, i, t) == 0
    ensures Analysis(text, t) == Failure(ErrorAt(TooManyBackets, i))
  {
    LayerTracksBrackets(text, i, t);
    ScanUnfold(text, i + 1, t);
    CloseAtLayerZero(Scan(text, i, t).value, i, t);
    ScanFailurePersists(text, i + 1, t);
  }

  /** After an opening bracket nothing is in progress, no operand has been
      read in the new layer, and the layer is at least one. */
  lemma OpenBracketResult(text: string, i: nat, t: Tables, s: State)
    requires i < |text| && Inv(text, i, t, s) && text[i] == '(' && !t.isWhiteSpace(text[i])
    requires OpenBracket(s, i, t).Success?
    ensures var s' := OpenBracket(s, i, t).value;
      s'.lastWord == NoWord && s'.layer >= 1 && s'.constructingWord == NotConstructing
  {
    var r1 := if s.constructingWord != NotConstructing then FinishConstructWord(s, i) else Success(s);
    SettlePreserves(text, i, t, s);
    if s.constructingWord != NotConstructing {
      FinishPreserves(text, i, t, s);
    }
    var s1 := r1.value;
    if s1.lastWord == NumberWord || s1.lastWord == VarNameWord {
      AddBinaryPreserves(text, i, t, s1.(lastWord := NoWord), s1.layer, t.multiplicationHandler);
    }
  }

  lemma OpenStep(s: State, i: int, t: Tables)
    requires !t.isWhiteSpace('(')
    ensures Step(s, i, '(', t) == OpenBracket(s, i, t)
  {
  }

  /** A character after which an operand is expected: an opening bracket, or
      a binary operator symbol that is not part of a number. */
  predicate AwaitsOperand(c: char, t: Tables)
  {
    && !t.isWhiteSpace(c)
    && (c == '(' || (t.symbolToBinaryHandler(c).Some? && !IsNumberChar(c) && c != ')'))
  }

  /** A closing bracket after an opening bracket or an operator, with only
      whitespace between them, is reported as empty brackets at the closing
      bracket: `()`, `( )` and `(1+)` alike. The scan must have read the
      bracket or operator without error and with no unknown word left open,
      and the closing bracket must have an open bracket to close. */
  lemma EmptyBracketsReported(text: string, k: nat, i: nat, t: Tables)
    requires k < i < |text| && AwaitsOperand(text[k], t) && Blank(text, k + 1, i, t)
    requires text[i] == ')' && !t.isWhiteSpace(')')
    requires Scan(text, k + 1, t).Success? && Scan(text, k + 1, t).value.constructingWord == NotConstructing
    requires Balance(text, i, t) > 0
    ensures Analysis(text, t) == Failure(ErrorAt(EmptyBackets, i))
  {
    OperandAwaited(text, k, t);
    WhitespaceAfterNumber(text, k + 1, i, t);
    NoOperandReported(text, i, t);
  }

  /** A closing bracket read where no operand has been read in its layer. */
  lemma NoOperandReported(text: string, i: nat, t: Tables)
    requires i < |text| && text[i] == ')' && !t.isWhiteSpace(')')
    requires Scan(text, i, t).Success? && Balance(text, i, t) > 0
    requires Scan(text, i, t).value.constructingWord == NotConstructing && Scan(text, i, t).value.lastWord == NoWord
    ensures Analysis(text, t) == Failure(ErrorAt(EmptyBackets, i))
  {
    LayerTracksBrackets(text, i, t);
    CloseWithoutOperand(Scan(text, i, t).value, i, t);
    StepFailureReported(text, i, t);
  }

  /** Right after an opening bracket or an operator no operand has been
      read. */
  lemma OperandAwaited(text: string, k: nat, t: Tables)
    requires k < |text| && AwaitsOperand(text[k], t) && Scan(text, k + 1, t).Success?
    ensures Scan(text, k + 1, t).value.lastWord == NoWord
  {
    ScanUnfold(text, k + 1, t);
    var s := Scan(text, k, t).value;
    if text[k] == '(' {
      ScanInvariant(text, k, t);
      OpenStep(s, k, t);
      OpenBracketResult(text, k, t, s);
    } else {
      OperatorClearsOperand(s, k, text[k], t);
    }
  }

  /** An operator leaves no operand pending in its place. */
  lemma OperatorClearsOperand(s: State, i: int, c: char, t: Tables)
    requires AwaitsOperand(c, t) && c != '('
    requires Step(s, i, c, t).Success?
    ensures Step(s, i, c, t).value.lastWord == NoWord
  {
    var s1 := if s.constructingWord == ConstructingNumber then FinishConstructWord(s, i) else Success(s);
    assert Step(s, i, c, t) == OtherCharacter(s, i, c, t);
    var h := t.symbolToBinaryHandler(c).value;
    assert OtherCharacter(s, i, c, t) == AddBinaryOperation(s1.value.(lastWord := NoWord), s1.value.layer, h, i);
  }

  /** After a digit, a number is in progress and its last valid digit is that
      one. */
  lemma DigitStepResult(s: State, i: int, c: char, t: Tables)
    requires IsDigit(c) && !t.isWhiteSpace(c) && Step(s, i, c, t).Success?
    ensures Step(s, i, c, t).value.constructingWord == ConstructingNumber
    ensures Step(s, i, c, t).value.lastValidDigit == i
  {
  }

  /** Every character from `a` up to `b` is whitespace. */
  ghost predicate Blank(text: string, a: nat, b: nat, t: Tables)
    requires a <= b <= |text|
    decreases b - a
  {
    a == b || (Blank(text, a, b - 1, t) && t.isWhiteSpace(text[b - 1]))
  }

  lemma {:induction false} BlankAt(text: string, a: nat, b: nat, m: nat, t: Tables)
    requires a <= m < b <= |text| && Blank(text, a, b, t)
    ensures t.isWhiteSpace(text[m])
    decreases b - a
  {
    if m < b - 1 {
      BlankAt(text, a, b - 1, m, t);
    }
  }

  /** Whitespace read while no token is in progress leaves the state as it
      is. */
  lemma WhitespaceAfterNumber(text: string, j: nat, k: nat, t: Tables)
    requires j <= k <= |text| && Blank(text, j, k, t)
    requires Scan(text, j, t).Success?
    requires Scan(text, j, t).value.constructingWord == NotConstructing
    ensures Scan(text, k, t) == Scan(text, j, t)
  {
    var p := (m: nat) => m <= |text| ==> Scan(text, m, t) == Scan(text, j, t);
    forall m | j < m <= k
      ensures p(m - 1) ==> p(m)
    {
      BlankAt(text, j, k, m - 1, t);
      WhitespaceStep(text, j, m, t);
    }
    Chain(p, j, k);
  }

  lemma WhitespaceStep(text: string, j: nat, m: nat, t: Tables)
    requires j < m <= |text| && t.isWhiteSpace(text[m - 1])
    requires Scan(text, j, t).Success? && Scan(text, j, t).value.constructingWord == NotConstructing
    ensures Scan(text, m - 1, t) == Scan(text, j, t) ==> Scan(text, m, t) == Scan(text, j, t)
  {
  }


  /** Ending a number whose last character was a digit completes it. */
  lemma FinishAfterDigit(s: State, i: int)
    requires s.constructingWord == ConstructingNumber && s.lastValidDigit == i - 1
    ensures FinishConstructWord(s, i).Success?
    ensures FinishConstructWord(s, i).value.lastWord == NumberWord
  {
  }

  /** A digit or a decimal point right after a completed number is
      refused. */
  lemma NumberAfterNumber(s: State, j: int, c: char, t: Tables)
    requires s.constructingWord == NotConstructing && s.lastWord == NumberWord
    requires (IsDigit(c) || c == '.') && !t.isWhiteSpace(c)
    ensures Step(s, j, c, t) == Failure(ErrorAt(TwoNumbersBackToBack, j))
  {
  }

  /** Two numbers separated only by whitespace are reported at the first
      character of the second one, a digit or a decimal point. */
  lemma TwoNumbersReported(text: string, i: nat, j: nat, t: Tables)
    requires i + 1 < j < |text|
    requires IsDigit(text[i]) && !t.isWhiteSpace(text[i])
    requires Blank(text, i + 1, j, t)
    requires (IsDigit(text[j]) || text[j] == '.') && !t.isWhiteSpace(text[j])
    requires Scan(text, i + 1, t).Success?
    ensures Analysis(text, t) == Failure(ErrorAt(TwoNumbersBackToBack, j))
  {
    NumberJustRead(text, i + 1, t);
    BlankAt(text, i + 1, j, i + 1, t);
    BlankAfter(text, i + 1, j, t);
    NumberEndsAtWhitespace(text, i + 1, t);
    WhitespaceAfterNumber(text, i + 2, j, t);
    SecondNumberReported(text, j, t);
  }

  lemma {:induction false} BlankAfter(text: string, a: nat, b: nat, t: Tables)
    requires a < b <= |text| && Blank(text, a, b, t)
    ensures Blank(text, a + 1, b, t)
    decreases b - a
  {
    if a + 1 < b {
      BlankAfter(text, a, b - 1, t);
    }
  }

  /** Right after a digit read without error, a number is in progress whose
      last digit is that one. */
  lemma NumberJustRead(text: string, n: nat, t: Tables)
    requires 0 < n <= |text| && IsDigit(text[n - 1]) && !t.isWhiteSpace(text[n - 1])
    requires Scan(text, n, t).Success?
    ensures Scan(text, n, t).value.constructingWord == ConstructingNumber
    ensures Scan(text, n, t).value.lastValidDigit == n - 1
  {
    ScanUnfold(text, n, t);
    DigitStepResult(Scan(text, n - 1, t).value, n - 1, text[n - 1], t);
  }

  /** Whitespace right after a digit completes the number. */
  lemma NumberEndsAtWhitespace(text: string, n: nat, t: Tables)
    requires n < |text| && t.isWhiteSpace(text[n]) && Scan(text, n, t).Success?
    requires Scan(text, n, t).value.constructingWord == ConstructingNumber
    requires Scan(text, n, t).value.lastValidDigit == n - 1
    ensures Scan(text, n + 1, t).Success?
    ensures Scan(text, n + 1, t).value.constructingWord == NotConstructing
    ensures Scan(text, n + 1, t).value.lastWord == NumberWord
  {
    var s := Scan(text, n, t).value;
    FinishAfterDigit(s, n);
    ScanUnfold(text, n + 1, t);
    assert Scan(text, n + 1, t) == FinishConstructWord(s, n);
  }

  /** A digit or a decimal point right after a completed number ends the
      analysis. */
  lemma SecondNumberReported(text: string, j: nat, t: Tables)
    requires j < |text| && (IsDigit(text[j]) || text[j] == '.') && !t.isWhiteSpace(text[j])
    requires Scan(text, j, t).Success?
    requires Scan(text, j, t).value.constructingWord == NotConstructing
    requires Scan(text, j, t).value.lastWord == NumberWord
    ensures Analysis(text, t) == Failure(ErrorAt(TwoNumbersBackToBack, j))
  {
    NumberAfterNumber(Scan(text, j, t).value, j, text[j], t);
    StepFailureReported(text, j, t);
  }

  /** Reading a word that has begun lasts to the end of the line, unless the
      scan fails. */
  ghost predicate ReadingWord(r: Result<State>)
  {
    r.Success? && r.value.constructingWord == ConstructingWord
  }

  /** Once a word is being read, every later turn that succeeds keeps
      reading it: a word can never be completed. */
  lemma StepKeepsWord(s: State, i: int, c: char, t: Tables)
    requires s.constructingWord == ConstructingWord && 0 <= s.wordStartIndex < i && s.lastValidDigit == -1
    ensures ReadingWord(Step(s, i, c, t)) || Step(s, i, c, t).Failure?
  {
    if !t.isWhiteSpace(c) && !(c == '.' || IsDigit(c)) && c != '(' && c != ')' && Step(s, i, c, t).Success? {
      OtherCharacterShape(s, i, c, t);
    }
  }

  /** What the invariant says about a word being read. */
  lemma WordTokenFacts(text: string, n: nat, t: Tables)
    requires n <= |text| && ReadingWord(Scan(text, n, t))
    ensures var s := Scan(text, n, t).value;
      0 <= s.wordStartIndex < n && s.lastValidDigit == -1
  {
    ScanInvariant(text, n, t);
  }

  lemma WordPersists(text: string, k: nat, n: nat, t: Tables)
    requires k <= n <= |text|
    requires ReadingWord(Scan(text, k, t))
    ensures Scan(text, n, t).Success? ==> ReadingWord(Scan(text, n, t))
  {
    var p := (m: nat) => m <= |text| ==> Scan(text, m, t).Success? ==> ReadingWord(Scan(text, m, t));
    forall m | k < m <= n
      ensures p(m - 1) ==> p(m)
    {
      ScanKeepsWordStep(text, m, t);
    }
    Chain(p, k, n);
  }

  /** A property that holds at `k` and carries over from each position to
      the next holds at every later position. */
  lemma {:induction false} Chain(p: nat -> bool, k: nat, n: nat)
    requires k <= n && p(k)
    requires forall m :: k < m <= n ==> p(m - 1) ==> p(m)
    ensures p(n)
    decreases n - k
  {
    if k < n {
      Chain(p, k, n - 1);
    }
  }

  lemma ScanKeepsWordStep(text: string, n: nat, t: Tables)
    requires 0 < n <= |text|
    ensures (Scan(text, n - 1, t).Success? ==> ReadingWord(Scan(text, n - 1, t))) ==>
      (Scan(text, n, t).Success? ==> ReadingWord(Scan(text, n, t)))
  {
    if Scan(text, n, t).Success? && ReadingWord(Scan(text, n - 1, t)) {
      ScanKeepsWordTurn(text, n, t);
    }
  }

  lemma ScanKeepsWordTurn(text: string, n: nat, t: Tables)
    requires 0 < n <= |text|
    requires ReadingWord(Scan(text, n - 1, t)) && Scan(text, n, t).Success?
    ensures Scan(text, n, t).value.constructingWord == ConstructingWord
  {
    WordTokenFacts(text, n - 1, t);
    StepKeepsWord(Scan(text, n - 1, t).value, n - 1, text[n - 1], t);
    ScanUnfold(text, n, t);
  }

  /** A character that is not whitespace, part of a number, a bracket or a
      binary operator makes the analysis fail. */
  lemma UnknownCharacterFails(text: string, k: nat, t: Tables)
    requires k < |text|
    requires var c := text[k];
      && !t.isWhiteSpace(c) && !IsNumberChar(c) && c != '(' && c != ')'
      && t.symbolToBinaryHandler(c).None?
    ensures Analysis(text, t).Failure?
  {
    if Analysis(text, t).Success? {
      ScanSucceedsBefore(text, k + 1, t);
      ScanSucceedsBefore(text, |text|, t);
      var s := Scan(text, k, t).value;
      OtherCharacterShape(s, k, text[k], t);
      WordPersists(text, k + 1, |text|, t);
      ScanInvariant(text, |text|, t);
    }
  }

  /** A digit or a comma that is not whitespace. */
  predicate FractionChar(c: char, t: Tables)
  {
    (IsDigit(c) || c == ',') && !t.isWhiteSpace(c)
  }

  /** Only such characters after position `i` and before position `m`. */
  ghost predicate FractionTail(text: string, i: nat, m: nat, t: Tables)
    requires i < m <= |text|
    decreases m - i
  {
    m == i + 1 || (FractionChar(text[i + 1], t) && FractionTail(text, i + 1, m, t))
  }

  lemma {:induction false} FractionTailHolds(text: string, i: nat, m: nat, t: Tables)
    requires i < m <= |text|
    requires forall k :: i < k < m ==> FractionChar(text[k], t)
    ensures FractionTail(text, i, m, t)
    decreases m - i
  {
    if m > i + 1 {
      FractionTailHolds(text, i + 1, m, t);
    }
  }

  /** The tail up to `m` holds the tail up to `m - 1` and its last character. */
  lemma {:induction false} FractionTailSplit(text: string, i: nat, m: nat, t: Tables)
    requires i + 1 < m <= |text| && FractionTail(text, i, m, t)
    ensures FractionTail(text, i, m - 1, t) && FractionChar(text[m - 1], t)
    decreases m - i
  {
    if i + 2 < m {
      FractionTailSplit(text, i + 1, m, t);
    }
  }

  /** The tail up to `j` holds the tail up to any `m` before it. */
  lemma {:induction false} FractionTailPrefix(text: string, i: nat, m: nat, j: nat, t: Tables)
    requires i < m <= j <= |text| && FractionTail(text, i, j, t)
    ensures FractionTail(text, i, m, t)
    decreases j - m
  {
    if m < j {
      FractionTailSplit(text, i, j, t);
      FractionTailPrefix(text, i, m, j - 1, t);
    }
  }

  /** After a decimal point, as long as only digits and commas follow, a
      number with a decimal point is in progress. */
  lemma PointInNumber(text: string, i: nat, j: nat, t: Tables)
    requires i < j <= |text| && text[i] == '.' && !t.isWhiteSpace('.')
    requires FractionTail(text, i, j, t)
    ensures Scan(text, j, t).Success? ==> InFraction(Scan(text, j, t))
  {
    var p := (m: nat) => m <= |text| ==> Scan(text, m, t).Success? ==> InFraction(Scan(text, m, t));
    FractionStart(text, i + 1, t);
    forall m | i + 1 < m <= j
      ensures p(m - 1) ==> p(m)
    {
      FractionTailPrefix(text, i, m, j, t);
      FractionStep(text, i, m, t);
    }
    Chain(p, i + 1, j);
  }

  /** A number with a decimal point in progress. */
  ghost predicate InFraction(r: Result<State>)
  {
    r.Success? && r.value.constructingWord == ConstructingNumber && r.value.decimalPointDepth >= 0
  }

  lemma FractionStep(text: string, i: nat, m: nat, t: Tables)
    requires i + 1 < m <= |text| && FractionTail(text, i, m, t)
    ensures (Scan(text, m - 1, t).Success? ==> InFraction(Scan(text, m - 1, t))) ==>
      (Scan(text, m, t).Success? ==> InFraction(Scan(text, m, t)))
  {
    if Scan(text, m, t).Success? {
      FractionTailSplit(text, i, m, t);
      FractionAdvance(text, m, t);
    }
  }

  lemma FractionAdvance(text: string, m: nat, t: Tables)
    requires 0 < m <= |text| && FractionChar(text[m - 1], t) && Scan(text, m, t).Success?
    ensures InFraction(Scan(text, m - 1, t)) ==> InFraction(Scan(text, m, t))
  {
    ScanUnfold(text, m, t);
    if InFraction(Scan(text, m - 1, t)) {
      NumberCharKeepsPoint(Scan(text, m - 1, t).value, m - 1, text[m - 1], t);
    }
  }

  lemma FractionStart(text: string, m: nat, t: Tables)
    requires 0 < m <= |text| && text[m - 1] == '.' && !t.isWhiteSpace('.')
    ensures Scan(text, m, t).Success? ==> InFraction(Scan(text, m, t))
  {
    if Scan(text, m, t).Success? {
      ScanUnfold(text, m, t);
      PointBeginsFraction(Scan(text, m - 1, t).value, m - 1, t);
    }
  }

  /** A digit or a comma inside a number with a decimal point keeps it. */
  lemma NumberCharKeepsPoint(s: State, i: int, c: char, t: Tables)
    requires s.constructingWord == ConstructingNumber && s.decimalPointDepth >= 0
    requires (IsDigit(c) || c == ',') && !t.isWhiteSpace(c)
    requires Step(s, i, c, t).Success?
    ensures Step(s, i, c, t).value.constructingWord == ConstructingNumber
    ensures Step(s, i, c, t).value.decimalPointDepth >= 0
  {
  }

  /** A decimal point read without error leaves a number with a point in
      progress. */
  lemma PointBeginsFraction(s: State, i: int, t: Tables)
    requires !t.isWhiteSpace('.') && Step(s, i, '.', t).Success?
    ensures Step(s, i, '.', t).value.constructingWord == ConstructingNumber
    ensures Step(s, i, '.', t).value.decimalPointDepth >= 0
  {
  }

  /** A second decimal point in one number is reported at that point. */
  lemma SecondPointReported(text: string, i: nat, j: nat, t: Tables)
    requires i < j < |text| && text[i] == '.' && text[j] == '.' && !t.isWhiteSpace('.')
    requires forall k :: i < k < j ==> (IsDigit(text[k]) || text[k] == ',') && !t.isWhiteSpace(text[k])
    requires Scan(text, j, t).Success?
    ensures Analysis(text, t) == Failure(ErrorAt(TooManyDecimalPoint, j))
  {
    FractionTailHolds(text, i, j, t);
    PointInNumber(text, i, j, t);
    PointAfterPoint(Scan(text, j, t).value, j, t);
    StepFailureReported(text, j, t);
  }

  /** A turn of the loop that fails ends the analysis with its error. */
  lemma StepFailureReported(text: string, i: nat, t: Tables)
    requires i < |text| && Scan(text, i, t).Success?
    requires Step(Scan(text, i, t).value, i, text[i], t).Failure?
    ensures Analysis(text, t) == Failure(Step(Scan(text, i, t).value, i, text[i], t).error)
  {
    ScanUnfold(text, i + 1, t);
    ScanFailurePersists(text, i + 1, t);
  }

  /** A decimal point in a number that already has one is refused. */
  lemma PointAfterPoint(s: State, j: int, t: Tables)
    requires s.constructingWord == ConstructingNumber && s.decimalPointDepth >= 0 && !t.isWhiteSpace('.')
    ensures Step(s, j, '.', t) == Failure(ErrorAt(TooManyDecimalPoint, j))
  {
  }

  /** A character that ends a number in progress: whitespace, or anything
      but a digit, a point or a comma, where a closing bracket must have an
      open bracket to close. */
  ghost predicate EndsNumber(text: string, n: nat, t: Tables)
    requires n < |text|
  {
    t.isWhiteSpace(text[n]) || (!IsNumberChar(text[n]) && (text[n] == ')' ==> Balance(text, n, t) > 0))
  }

  /** A number whose last character is a point or a comma fails, whether the
      line ends there or whitespace, a bracket or an operator follows: a
      second point is refused, and otherwise the number, which does not end
      in a digit, is an unknown word spanning the whole token. */
  lemma TrailingNonDigitReported(text: string, i: nat, t: Tables)
    requires i < |text| && (text[i] == '.' || text[i] == ',') && !t.isWhiteSpace(text[i])
    requires Scan(text, i, t).Success? && Scan(text, i, t).value.constructingWord == ConstructingNumber
    requires i + 1 == |text| || EndsNumber(text, i + 1, t)
    ensures var s := Scan(text, i, t).value;
      Analysis(text, t) == Failure(
        if text[i] == '.' && s.decimalPointDepth != -1 then ErrorAt(TooManyDecimalPoint, i)
        else SyntaxError(UnknownWord, s.wordStartIndex, i + 1))
  {
    PointOrCommaScanned(text, i, t);
    if Scan(text, i + 1, t).Failure? {
      ScanFailurePersists(text, i + 1, t);
    } else if i + 1 < |text| {
      CutShortReported(text, i + 1, t);
    } else {
      CutShortAtEnd(text, t);
    }
  }

  /** A `.` read with no token open and no operand just before it starts a
      number of its own; followed by the end of the line, whitespace or a
      character that cannot continue a number, that one-character number
      is an unknown word. */
  lemma LonePointReported(text: string, i: nat, t: Tables)
    requires i < |text| && text[i] == '.' && !t.isWhiteSpace('.')
    requires Scan(text, i, t).Success?
    requires Scan(text, i, t).value.constructingWord == NotConstructing && Scan(text, i, t).value.lastWord == NoWord
    requires i + 1 == |text| || EndsNumber(text, i + 1, t)
    ensures Analysis(text, t) == Failure(SyntaxError(UnknownWord, i, i + 1))
  {
    LonePointScanned(text, i, t);
    if i + 1 < |text| {
      CutShortReported(text, i + 1, t);
    } else {
      CutShortAtEnd(text, t);
    }
  }

  /** The scan just past such a `.`: a number is open from `i`, with no
      digit yet. */
  lemma LonePointScanned(text: string, i: nat, t: Tables)
    requires i < |text| && text[i] == '.' && !t.isWhiteSpace('.')
    requires Scan(text, i, t).Success?
    requires Scan(text, i, t).value.constructingWord == NotConstructing && Scan(text, i, t).value.lastWord == NoWord
    ensures Scan(text, i + 1, t).Success?
    ensures var s' := Scan(text, i + 1, t).value;
      s'.constructingWord == ConstructingNumber && s'.wordStartIndex == i && s'.lastValidDigit == -1
  {
    ScanUnfold(text, i + 1, t);
    LonePointStep(Scan(text, i, t).value, i, t);
  }

  lemma LonePointStep(s: State, i: int, t: Tables)
    requires s.constructingWord == NotConstructing && s.lastWord == NoWord && !t.isWhiteSpace('.')
    ensures Step(s, i, '.', t).Success?
    ensures var s' := Step(s, i, '.', t).value;
      s'.constructingWord == ConstructingNumber && s'.wordStartIndex == i && s'.lastValidDigit == -1
  {
  }

  /** A number still waiting for a digit when the line ends is an unknown
      word. */
  lemma CutShortAtEnd(text: string, t: Tables)
    requires Scan(text, |text|, t).Success?
    requires var s := Scan(text, |text|, t).value;
      s.constructingWord == ConstructingNumber && s.wordStartIndex < |text| && s.lastValidDigit != |text| - 1
    ensures Analysis(text, t) == Failure(SyntaxError(UnknownWord, Scan(text, |text|, t).value.wordStartIndex, |text|))
  {
  }

  /** The scan just past a point or comma read inside a number. */
  lemma PointOrCommaScanned(text: string, i: nat, t: Tables)
    requires i < |text| && (text[i] == '.' || text[i] == ',') && !t.isWhiteSpace(text[i])
    requires Scan(text, i, t).Success? && Scan(text, i, t).value.constructingWord == ConstructingNumber
    ensures var s := Scan(text, i, t).value;
      if text[i] == '.' && s.decimalPointDepth != -1 then
        Scan(text, i + 1, t) == Failure(ErrorAt(TooManyDecimalPoint, i))
      else
        && Scan(text, i + 1, t).Success?
        && Scan(text, i + 1, t).value.constructingWord == ConstructingNumber
        && Scan(text, i + 1, t).value.wordStartIndex == s.wordStartIndex < i + 1
        && Scan(text, i + 1, t).value.lastValidDigit != i
  {
    var s := Scan(text, i, t).value;
    ScanInvariant(text, i, t);
    ScanUnfold(text, i + 1, t);
    PointOrCommaInNumber(s, i, text[i], t);
  }

  /** The character after a number that does not end in a digit ends the
      analysis with an unknown word. */
  lemma CutShortReported(text: string, n: nat, t: Tables)
    requires n < |text| && EndsNumber(text, n, t) && Scan(text, n, t).Success?
    requires var s := Scan(text, n, t).value;
      s.constructingWord == ConstructingNumber && s.wordStartIndex < n && s.lastValidDigit != n - 1
    ensures Analysis(text, t) == Failure(SyntaxError(UnknownWord, Scan(text, n, t).value.wordStartIndex, n))
  {
    LayerTracksBrackets(text, n, t);
    NumberCutShort(Scan(text, n, t).value, n, text[n], t);
    StepFailureReported(text, n, t);
  }

  /** A point or a comma inside a number: a second point is refused, and
      otherwise the number goes on with the same start and last digit. */
  lemma PointOrCommaInNumber(s: State, i: int, c: char, t: Tables)
    requires (c == '.' || c == ',') && !t.isWhiteSpace(c) && s.constructingWord == ConstructingNumber
    ensures c == '.' && s.decimalPointDepth != -1 ==> Step(s, i, c, t) == Failure(ErrorAt(TooManyDecimalPoint, i))
    ensures c == ',' || s.decimalPointDepth == -1 ==>
      && Step(s, i, c, t).Success?
      && Step(s, i, c, t).value.constructingWord == ConstructingNumber
      && Step(s, i, c, t).value.wordStartIndex == s.wordStartIndex
      && Step(s, i, c, t).value.lastValidDigit == s.lastValidDigit
  {
  }

  /** A number that does not end in a digit, cut short by a character that
      ends it, is an unknown word. */
  lemma NumberCutShort(s: State, n: int, c: char, t: Tables)
    requires s.constructingWord == ConstructingNumber && s.wordStartIndex < n && s.lastValidDigit != n - 1
    requires t.isWhiteSpace(c) || (!IsNumberChar(c) && (c == ')' ==> s.layer > 0))
    ensures Step(s, n, c, t) == Failure(SyntaxError(UnknownWord, s.wordStartIndex, n))
  {
  }

  /** An opening bracket after a number, whether the number is still open
      (right after its last digit) or already completed (by whitespace or a
      closing bracket), pushes the multiplication handler in the current
      layer, and opens a layer in which no operand has been read. */
  lemma BracketAfterNumber(s: State, i: int, t: Tables)
    requires !t.isWhiteSpace('(')
    requires || (s.constructingWord == ConstructingNumber && s.wordStartIndex < i && s.lastValidDigit == i - 1)
             || (s.constructingWord == NotConstructing && s.lastWord == NumberWord)
    requires Step(s, i, '(', t).Success?
    ensures var s' := Step(s, i, '(', t).value;
      var p := s'.constructingOperations;
      var m := t.multiplicationHandler;
      && |p| >= 1 && p[|p| - 1] == PendingBinary(m, s.layer, Order(m))
      && s'.layer == s.layer + 1 && s'.lastWord == NoWord && s'.constructingWord == NotConstructing
  {
    OpenStep(s, i, t);
    if s.constructingWord == ConstructingNumber {
      FinishAfterDigit(s, i);
    }
  }

  /** A closing bracket read without error ends an operand: afterwards no
      token is open and the last word is a number, so a `(` that follows
      multiplies and a digit that follows is a second number. */
  lemma CloseLeavesOperand(text: string, i: nat, t: Tables)
    requires i < |text| && text[i] == ')' && !t.isWhiteSpace(')')
    requires Scan(text, i + 1, t).Success?
    ensures Scan(text, i + 1, t).value.constructingWord == NotConstructing
    ensures Scan(text, i + 1, t).value.lastWord == NumberWord
  {
    ScanUnfold(text, i + 1, t);
    ScanInvariant(text, i, t);
    CloseEndsOperand(Scan(text, i, t).value, i, t);
  }

  lemma CloseEndsOperand(s: State, i: int, t: Tables)
    requires !t.isWhiteSpace(')') && (s.lastWord == NoWord || s.lastWord == NumberWord)
    requires s.constructingWord == ConstructingWord ==> 0 <= s.wordStartIndex < i && s.lastValidDigit == -1
    requires Step(s, i, ')', t).Success?
    ensures Step(s, i, ')', t).value.constructingWord == NotConstructing
    ensures Step(s, i, ')', t).value.lastWord == NumberWord
  {
    assert Step(s, i, ')', t) == CloseBracket(s, i);
  }

  /** An operator symbol is pushed tagged with the bracket depth at its
      position and with its own order. */
  lemma OperatorTaggedWithDepth(text: string, i: nat, t: Tables, h: BinaryHandler)
    requires i < |text| && !t.isWhiteSpace(text[i]) && !IsDigit(text[i])
    requires text[i] != '.' && text[i] != ',' && text[i] != '(' && text[i] != ')'
    requires t.symbolToBinaryHandler(text[i]) == Some(h)
    requires Scan(text, i + 1, t).Success?
    ensures var p := Scan(text, i + 1, t).value.constructingOperations;
      |p| >= 1 && p[|p| - 1] == PendingBinary(h, Balance(text, i, t), Order(h))
  {
    ScanUnfold(text, i + 1, t);
    var s := Scan(text, i, t).value;
    LayerTracksBrackets(text, i, t);
    OperatorLayer(s, i, text[i], t, h);
  }

  lemma OperatorLayer(s: State, i: int, c: char, t: Tables, h: BinaryHandler)
    requires !t.isWhiteSpace(c) && !IsDigit(c) && c != '.' && c != ',' && c != '(' && c != ')'
    requires t.symbolToBinaryHandler(c) == Some(h)
    requires Step(s, i, c, t).Success?
    ensures var p := Step(s, i, c, t).value.constructingOperations;
      |p| >= 1 && p[|p| - 1] == PendingBinary(h, s.layer, Order(h))
  {
    assert Step(s, i, c, t) == OtherCharacter(s, i, c, t);
    OtherCharacterShape(s, i, c, t);
  }
}
