/** Concrete lines run through the analysis, for symbol tables that map the
    usual characters to the handlers. They show consequences of the
    reduction rule, of bracket layers and of the implicit multiplication,
    and the end-of-line check, as the analyzer has them. */
module AnalyzerExamples {
  import opened Handlers
  import opened Syntax
  import opened Analyzer

  /** Tables in which `+`, `*` and `^` are the addition, multiplication and
      power operators, and none of `chars` is whitespace. */
  predicate UsualTables(t: Tables, chars: string)
  {
    && t.symbolToBinaryHandler('+') == Some(Addition)
    && t.symbolToBinaryHandler('*') == Some(Multiplication)
    && t.symbolToBinaryHandler('^') == Some(Power)
    && forall k :: 0 <= k < |chars| ==> !t.isWhiteSpace(chars[k])
  }

  /* The states the analysis passes through on `1*2^3+4`. */
  const L1: Node := Literal(1.0, 0, 1)
  const L2: Node := Literal(2.0, 2, 3)
  const L3: Node := Literal(3.0, 4, 5)
  const L4: Node := Literal(4.0, 6, 7)
  const PowerNode: Node := Binary(Power, L2, L3, 2, 5)
  const Times: Operation := PendingBinary(Multiplication, 0, 1)
  const Raise: Operation := PendingBinary(Power, 0, 3)
  const Plus: Operation := PendingBinary(Addition, 0, 0)
  const S1: State := State(0, 0, 1, 0, -1, NoWord, ConstructingNumber, [], [])
  const S2: State := State(0, 0, 1, 0, -1, NoWord, NotConstructing, [Times], [L1])
  const S3: State := State(2, 0, 2, 2, -1, NoWord, ConstructingNumber, [Times], [L1])
  const S4: State := State(2, 0, 2, 2, -1, NoWord, NotConstructing, [Times, Raise], [L1, L2])
  const S5: State := State(4, 0, 3, 4, -1, NoWord, ConstructingNumber, [Times, Raise], [L1, L2])
  const S6: State := State(4, 0, 3, 4, -1, NoWord, NotConstructing, [Times, Plus], [L1, PowerNode])
  const S7: State := State(6, 0, 4, 6, -1, NoWord, ConstructingNumber, [Times, Plus], [L1, PowerNode])

  /** A digit read after an operator, or at the start of the line, begins a
      number. */
  lemma DigitBeginsNumber(s: State, i: int, c: char, t: Tables)
    requires s.constructingWord == NotConstructing && s.lastWord == NoWord
    requires IsDigit(c) && !t.isWhiteSpace(c)
    ensures Step(s, i, c, t) == Success(s.(wordStartIndex := i, number := DigitValue(c), lastValidDigit := i,
      decimalPointDepth := -1, constructingWord := ConstructingNumber))
  {
  }

  /** An operator symbol right after a digit: the number is completed and the
      operator added. */
  lemma OperatorStep(s: State, i: int, c: char, h: BinaryHandler, t: Tables)
    requires s.constructingWord == ConstructingNumber && s.wordStartIndex < i && s.lastValidDigit == i - 1
    requires !t.isWhiteSpace(c) && t.symbolToBinaryHandler(c) == Some(h)
    requires c != '.' && c != ',' && c != '(' && c != ')' && !IsDigit(c)
    ensures var s1 := FinishConstructWord(s, i).value;
      Step(s, i, c, t) == AddBinaryOperation(s1.(lastWord := NoWord), s1.layer, h, i)
  {
  }

  /** What adding the operator does after the number before it is
      completed. */
  ghost predicate AddsAfterNumber(s: State, i: int, h: BinaryHandler, s': State)
    requires FinishConstructWord(s, i).Success?
  {
    var s1 := FinishConstructWord(s, i).value;
    AddBinaryOperation(s1.(lastWord := NoWord), s1.layer, h, i) == Success(s')
  }

  lemma TimesAdded()
    ensures FinishConstructWord(S1, 1).Success? && AddsAfterNumber(S1, 1, Multiplication, S2)
  {
    var f := FinishConstructWord(S1, 1);
    assert f.Success?;
    assert f.value.finishedOperations == [L1];
    var s1 := f.value.(lastWord := NoWord);
    assert s1.constructingOperations == [];
    var r := AddBinaryOperation(s1, 0, Multiplication, 1);
    assert r.Success?;
    assert r.value.constructingOperations == [Times];
    assert r.value == S2;
  }

  lemma RaiseAdded()
    ensures FinishConstructWord(S3, 3).Success? && AddsAfterNumber(S3, 3, Power, S4)
  {
    var f := FinishConstructWord(S3, 3);
    assert f.Success?;
    assert f.value.finishedOperations == [L1, L2];
    var s1 := f.value.(lastWord := NoWord);
    assert s1.constructingOperations == [Times];
    var r := AddBinaryOperation(s1, 0, Power, 3);
    assert r.Success?;
    assert r.value.constructingOperations == [Times, Raise];
    assert r.value == S4;
  }

  /** `2^3` is reduced when `+` arrives. */
  lemma RaiseReduced()
    ensures PushOp(Raise, [L1, L2, L3]) == (true, [L1, PowerNode])
  {
    var f := [L1, L2, L3];
    assert f[..2] == [L1, L2];
    assert [L1, L2][..1] == [L1];
    assert PushOp(Raise, f).1 == [L1, PowerNode];
  }

  lemma PlusAdded()
    ensures FinishConstructWord(S5, 5).Success? && AddsAfterNumber(S5, 5, Addition, S6)
  {
    var f := FinishConstructWord(S5, 5);
    assert f.Success?;
    assert f.value.finishedOperations == [L1, L2, L3];
    var s1 := f.value.(lastWord := NoWord);
    assert s1.constructingOperations == [Times, Raise];
    RaiseReduced();
    assert [Times, Raise][..1] + [Plus] == [Times, Plus];
    var r := AddBinaryOperation(s1, 0, Addition, 5);
    assert r.Success?;
    assert r.value.constructingOperations == [Times, Plus];
    assert r.value.finishedOperations == [L1, PowerNode];
    assert r.value == S6;
  }

  /** One more character read. */
  lemma ScanNext(text: string, n: nat, t: Tables, s: State, s': State)
    requires n < |text| && Scan(text, n, t) == Success(s)
    requires Step(s, n, text[n], t) == Success(s')
    ensures Scan(text, n + 1, t) == Success(s')
  {
    assert text[..n + 1][n] == text[n];
  }

  /** The end of `1*2^3+4`: the last number is completed. */
  lemma LastNumberCompleted()
    ensures FinishConstructWord(S7, 7) == Success(S7.(finishedOperations := [L1, PowerNode, L4],
      lastWord := NumberWord, constructingWord := NotConstructing))
  {
    var f := FinishConstructWord(S7, 7);
    assert f.Success?;
    assert LiteralValue(4, -1) == 4.0;
    assert f.value.finishedOperations == [L1, PowerNode] + [L4];
    assert [L1, PowerNode] + [L4] == [L1, PowerNode, L4];
  }

  /** Then `+` and `*` are reduced, in that order. */
  lemma LastReductions()
    ensures Drain([Times, Plus], [L1, PowerNode, L4]) ==
      [Binary(Multiplication, L1, Binary(Addition, PowerNode, L4, 2, 7), 0, 7)]
  {
    var sum := Binary(Addition, PowerNode, L4, 2, 7);
    var f := [L1, PowerNode, L4];
    assert f[..2] == [L1, PowerNode];
    assert [L1, PowerNode][..1] == [L1];
    assert PushOp(Plus, f).0;
    assert PushOp(Plus, f).1 == [L1, sum];
    var g := [L1, sum];
    assert g[..1] == [L1];
    assert g[..1][..0] == [];
    assert PushOp(Times, g).0;
    assert PushOp(Times, g).1 == [Binary(Multiplication, L1, sum, 0, 7)];
    assert [Times, Plus][..1] == [Times];
    assert [Times][..0] == [];
    assert Drain([Times], g) == Drain([], PushOp(Times, g).1);
    assert Drain([Times, Plus], f) == Drain([Times], g);
  }

  /** Adding an operator reduces at most one pending operator, so in
      `1*2^3+4` the `+` reduces `2^3` but leaves `*` pending, and the line
      is read as 1*((2^3)+4) rather than (1*(2^3))+4. */
  lemma SingleReduction(t: Tables)
    requires UsualTables(t, "1*2^3+4")
    ensures Analysis("1*2^3+4", t) == Success(
      Binary(Multiplication, L1, Binary(Addition, PowerNode, L4, 2, 7), 0, 7))
  {
    SingleReductionScan(t);
    LastNumberCompleted();
    LastReductions();
  }

  /** The scan of "1*2^3+4", one character at a time. */
  lemma SingleReductionScan(t: Tables)
    requires UsualTables(t, "1*2^3+4")
    ensures Scan("1*2^3+4", 7, t) == Success(S7)
  {
    var text := "1*2^3+4";
    assert text[0] == '1' && text[1] == '*' && text[2] == '2' && text[3] == '^';
    assert text[4] == '3' && text[5] == '+' && text[6] == '4';
    assert !t.isWhiteSpace(text[0]) && !t.isWhiteSpace(text[1]) && !t.isWhiteSpace(text[2]) && !t.isWhiteSpace(text[3]);
    assert !t.isWhiteSpace(text[4]) && !t.isWhiteSpace(text[5]) && !t.isWhiteSpace(text[6]);
    DigitBeginsNumber(Initial, 0, '1', t);
    ScanNext(text, 0, t, Initial, S1);
    TimesAdded();
    OperatorStep(S1, 1, '*', Multiplication, t);
    ScanNext(text, 1, t, S1, S2);
    DigitBeginsNumber(S2, 2, '2', t);
    ScanNext(text, 2, t, S2, S3);
    RaiseAdded();
    OperatorStep(S3, 3, '^', Power, t);
    ScanNext(text, 3, t, S3, S4);
    DigitBeginsNumber(S4, 4, '3', t);
    ScanNext(text, 4, t, S4, S5);
    PlusAdded();
    OperatorStep(S5, 5, '+', Addition, t);
    ScanNext(text, 5, t, S5, S6);
    DigitBeginsNumber(S6, 6, '4', t);
    ScanNext(text, 6, t, S6, S7);
  }

  /** An opening bracket that is never closed is not an error. */
  lemma UnclosedBracketAccepted(t: Tables)
    requires !t.isWhiteSpace('(') && !t.isWhiteSpace('1')
    ensures Analysis("(1", t) == Success(Literal(1.0, 1, 2))
  {
    var text := "(1";
    assert Scan(text, 1, t) == Success(State(0, 1, 0, -1, -1, NoWord, NotConstructing, [], []));
    assert Scan(text, 2, t) == Success(State(1, 1, 1, 1, -1, NoWord, ConstructingNumber, [], []));
  }

  /* The states the analysis passes through on `(1)(2)`. */
  const One: Node := Literal(1.0, 1, 2)
  const Two: Node := Literal(2.0, 4, 5)
  const B1: State := State(0, 1, 0, -1, -1, NoWord, NotConstructing, [], [])
  const B2: State := State(1, 1, 1, 1, -1, NoWord, ConstructingNumber, [], [])
  const B3: State := State(1, 0, 1, 1, -1, NumberWord, NotConstructing, [], [One])
  const B4: State := State(1, 1, 1, 1, -1, NoWord, NotConstructing, [Times], [One])
  const B5: State := State(4, 1, 2, 4, -1, NoWord, ConstructingNumber, [Times], [One])
  const B6: State := State(4, 0, 2, 4, -1, NumberWord, NotConstructing, [Times], [One, Two])

  /** A closing bracket completes the number inside it and leaves a number as
      the last word. */
  lemma FirstGroupScan(text: string, t: Tables)
    requires |text| >= 3 && text[..3] == "(1)"
    requires !t.isWhiteSpace('(') && !t.isWhiteSpace('1') && !t.isWhiteSpace(')')
    ensures Scan(text, 3, t) == Success(B3)
  {
    assert text[0] == '(' && text[1] == '1' && text[2] == ')';
    ScanNext(text, 0, t, Initial, B1);
    DigitBeginsNumber(B1, 1, '1', t);
    ScanNext(text, 1, t, B1, B2);
    var f := FinishConstructWord(B2, 2);
    assert f.Success? && f.value.finishedOperations == [One];
    ScanNext(text, 2, t, B2, B3);
  }

  /** The scan of `(1)(2)`: the second `(` pushes the implicit
      multiplication. */
  lemma GroupsMultiplyScan(t: Tables)
    requires !t.isWhiteSpace('(') && !t.isWhiteSpace('1') && !t.isWhiteSpace(')') && !t.isWhiteSpace('2')
    requires t.multiplicationHandler == Multiplication
    ensures Scan("(1)(2)", 6, t) == Success(B6)
  {
    var text := "(1)(2)";
    assert text[3] == '(' && text[4] == '2' && text[5] == ')';
    FirstGroupScan(text, t);
    ImplicitTimes(t);
    ScanNext(text, 3, t, B3, B4);
    DigitBeginsNumber(B4, 4, '2', t);
    ScanNext(text, 4, t, B4, B5);
    SecondGroupClosed(t);
    ScanNext(text, 5, t, B5, B6);
  }

  lemma ImplicitTimes(t: Tables)
    requires !t.isWhiteSpace('(') && t.multiplicationHandler == Multiplication
    ensures Step(B3, 3, '(', t) == Success(B4)
  {
    var r := AddBinaryOperation(B3.(lastWord := NoWord), 0, Multiplication, 3);
    assert r.Success? && r.value.constructingOperations == [Times];
  }

  lemma SecondGroupClosed(t: Tables)
    requires !t.isWhiteSpace(')')
    ensures Step(B5, 5, ')', t) == Success(B6)
  {
    var f := FinishConstructWord(B5, 5);
    assert f.Success? && f.value.finishedOperations == [One, Two];
  }

  /** A bracket after a closing bracket multiplies: `(1)(2)` is 1*2. */
  lemma GroupsMultiply(t: Tables)
    requires !t.isWhiteSpace('(') && !t.isWhiteSpace('1') && !t.isWhiteSpace(')') && !t.isWhiteSpace('2')
    requires t.multiplicationHandler == Multiplication
    ensures Analysis("(1)(2)", t) == Success(Binary(Multiplication, One, Two, 1, 5))
  {
    GroupsMultiplyScan(t);
    var g := [One, Two];
    assert g[..1] == [One];
    assert g[..1][..0] == [];
    assert PushOp(Times, g).0;
    assert PushOp(Times, g).1 == [Binary(Multiplication, One, Two, 1, 5)];
    assert [Times][..0] == [];
    assert Drain([Times], g) == Drain([], PushOp(Times, g).1);
  }

  /** A digit after a closing bracket is a second number: `(1)2` is an
      error at the `2`. */
  lemma DigitAfterGroupFails(t: Tables)
    requires !t.isWhiteSpace('(') && !t.isWhiteSpace('1') && !t.isWhiteSpace(')') && !t.isWhiteSpace('2')
    ensures Analysis("(1)2", t) == Failure(SyntaxError(TwoNumbersBackToBack, 3, 4))
  {
    var text := "(1)2";
    assert text[3] == '2';
    FirstGroupScan(text, t);
  }

  /* The states the analysis passes through on `2*(3+4)`. */
  const M2: Node := Literal(2.0, 0, 1)
  const M3: Node := Literal(3.0, 3, 4)
  const M4: Node := Literal(4.0, 5, 6)
  const InnerPlus: Operation := PendingBinary(Addition, 1, 0)
  const G1: State := State(0, 0, 2, 0, -1, NoWord, ConstructingNumber, [], [])
  const G2: State := State(0, 0, 2, 0, -1, NoWord, NotConstructing, [Times], [M2])
  const G3: State := State(0, 1, 2, 0, -1, NoWord, NotConstructing, [Times], [M2])
  const G4: State := State(3, 1, 3, 3, -1, NoWord, ConstructingNumber, [Times], [M2])
  const G5: State := State(3, 1, 3, 3, -1, NoWord, NotConstructing, [Times, InnerPlus], [M2, M3])
  const G6: State := State(5, 1, 4, 5, -1, NoWord, ConstructingNumber, [Times, InnerPlus], [M2, M3])
  const G7: State := State(5, 0, 4, 5, -1, NumberWord, NotConstructing, [Times, InnerPlus], [M2, M3, M4])

  lemma OuterTimesAdded()
    ensures FinishConstructWord(G1, 1).Success? && AddsAfterNumber(G1, 1, Multiplication, G2)
  {
    var f := FinishConstructWord(G1, 1);
    assert f.Success? && f.value.finishedOperations == [M2];
    var r := AddBinaryOperation(f.value.(lastWord := NoWord), 0, Multiplication, 1);
    assert r.Success? && r.value.constructingOperations == [Times];
    assert r.value == G2;
  }

  /** Inside the bracket `+` is pushed one layer deeper than `*`, so it does
      not reduce it. */
  lemma InnerPlusAdded()
    ensures FinishConstructWord(G4, 4).Success? && AddsAfterNumber(G4, 4, Addition, G5)
  {
    var f := FinishConstructWord(G4, 4);
    assert f.Success? && f.value.finishedOperations == [M2, M3];
    var r := AddBinaryOperation(f.value.(lastWord := NoWord), 1, Addition, 4);
    assert !Reduces(Times, 1, Order(Addition));
    assert r.Success? && r.value.constructingOperations == [Times, InnerPlus];
    assert r.value == G5;
  }

  lemma InnerGroupClosed(t: Tables)
    requires !t.isWhiteSpace(')')
    ensures Step(G6, 6, ')', t) == Success(G7)
  {
    var f := FinishConstructWord(G6, 6);
    assert f.Success? && f.value.finishedOperations == [M2, M3, M4];
  }

  /** The scan of `2*(3+4)` up to the bracket. */
  lemma BracketOpenedScan(t: Tables)
    requires UsualTables(t, "2*(3+4)")
    ensures Scan("2*(3+4)", 3, t) == Success(G3)
  {
    var text := "2*(3+4)";
    assert text[0] == '2' && text[1] == '*' && text[2] == '(';
    assert !t.isWhiteSpace(text[0]) && !t.isWhiteSpace(text[1]) && !t.isWhiteSpace(text[2]);
    DigitBeginsNumber(Initial, 0, '2', t);
    ScanNext(text, 0, t, Initial, G1);
    OuterTimesAdded();
    OperatorStep(G1, 1, '*', Multiplication, t);
    ScanNext(text, 1, t, G1, G2);
    ScanNext(text, 2, t, G2, G3);
  }

  /** The rest of the scan of `2*(3+4)`. */
  lemma BracketGroupScan(t: Tables)
    requires UsualTables(t, "2*(3+4)")
    ensures Scan("2*(3+4)", 7, t) == Success(G7)
  {
    var text := "2*(3+4)";
    assert text[3] == '3' && text[4] == '+' && text[5] == '4' && text[6] == ')';
    assert !t.isWhiteSpace(text[3]) && !t.isWhiteSpace(text[4]) && !t.isWhiteSpace(text[5]) && !t.isWhiteSpace(text[6]);
    BracketOpenedScan(t);
    DigitBeginsNumber(G3, 3, '3', t);
    ScanNext(text, 3, t, G3, G4);
    InnerPlusAdded();
    OperatorStep(G4, 4, '+', Addition, t);
    ScanNext(text, 4, t, G4, G5);
    DigitBeginsNumber(G5, 5, '4', t);
    ScanNext(text, 5, t, G5, G6);
    InnerGroupClosed(t);
    ScanNext(text, 6, t, G6, G7);
  }

  /** At the end the inner `+` is reduced before the outer `*`. */
  lemma GroupReductions()
    ensures Drain([Times, InnerPlus], [M2, M3, M4]) ==
      [Binary(Multiplication, M2, Binary(Addition, M3, M4, 3, 6), 0, 6)]
  {
    var sum := Binary(Addition, M3, M4, 3, 6);
    var f := [M2, M3, M4];
    assert f[..2] == [M2, M3];
    assert [M2, M3][..1] == [M2];
    assert PushOp(InnerPlus, f).0;
    assert PushOp(InnerPlus, f).1 == [M2, sum];
    var g := [M2, sum];
    assert g[..1] == [M2];
    assert g[..1][..0] == [];
    assert PushOp(Times, g).0;
    assert PushOp(Times, g).1 == [Binary(Multiplication, M2, sum, 0, 6)];
    assert [Times, InnerPlus][..1] == [Times];
    assert [Times][..0] == [];
    assert Drain([Times], g) == Drain([], PushOp(Times, g).1);
    assert Drain([Times, InnerPlus], f) == Drain([Times], g);
  }

  /** A bracket changes the tree: `2*(3+4)` multiplies 2 by the sum. */
  lemma BracketGroups(t: Tables)
    requires UsualTables(t, "2*(3+4)")
    ensures Analysis("2*(3+4)", t) == Success(
      Binary(Multiplication, M2, Binary(Addition, M3, M4, 3, 6), 0, 6))
  {
    BracketGroupScan(t);
    GroupReductions();
  }
}
