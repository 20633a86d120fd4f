# Text Calculator syntax analyzer, modelled in Dafny

Text Calculator evaluates arithmetic typed into a text box, one line at a time.
Its core is `SyntaxAnalyzer.Analysis`. It reads a line character by character
and builds an expression tree. The tree has literal, binary and unary nodes,
and each node carries the character span it came from. It uses two stacks:
one of pending operators, one of finished operands.

- Each pending operator carries a bracket layer and a precedence order.
- A new operator first reduces the operator on top of the stack, if that one
  sits in a deeper layer or in the same layer with an order at least as high.
- A `(` after a completed number is an implicit multiplication. The number
  may end right before the `(`, or be followed by whitespace or closed by a
  `)`: a closing bracket leaves a number as the last word, so `(1)(2)` is
  `1*2` and `(1)2` is two numbers back to back.
- At the end of the line, the pending operators are reduced last in first
  out until none is left or a reduction fails; exactly one operand must then
  remain.
- Every error is a `SyntaxException`: a message plus the start and end index
  of the offending text.

The operator handlers supply each operator's symbol, precedence order and
calculation: `+ * / % ^` and unary negation.

The project has three layers.

- **Specification** (`Analyzer.dfy`): module `Analyzer` is a pure state
  machine. `State` holds the scan's local variables and both stacks. `Step`
  is one turn of the loop, `Scan` runs the loop over a prefix of the line,
  and `Drain` and `Analysis` model the end of the line. `PushOp`,
  `AddBinaryOperation` and `FinishConstructWord` are functions with their own
  contracts. Errors are the `Failure` case of a `Result` rather than
  exceptions (`Syntax.dfy`).
- **Implementation** (`AnalyzerImpl.dfy`): class `SyntaxAnalyzer` keeps the
  two stacks and the scan's shared variables as fields, which its methods
  update in place, as the C# local functions do. Each method is proved to
  leave exactly the state the matching specification function computes.
  `Analysis` is proved to return exactly `Analyzer.Analysis`.
- **Theorems** (`AnalyzerProofs.dfy`, `ScanState.dfy`, `Tokens.dfy`): an
  invariant of the scan is proved preserved by every step. From it follow:
  - the shape of every tree the analysis returns;
  - the exact value of every literal;
  - that no digit of the line is lost;
  - where errors are reported, and which error a given kind of mistake
    produces.

  `Examples.dfy` works through concrete lines.

The operator handlers are in `Handlers.dfy`. Values are exact reals.
`Math.Pow` is a function parameter. The `%` operator is the truncated
remainder, proved to satisfy its defining properties.

The source's collaborators are parameters, collected in a `Tables` record:

- the whitespace test (`char.IsWhiteSpace`);
- the symbol table (`SymbolConvertor.SymbolToBinaryHandler`);
- the handler used for implicit multiplication
  (`SymbolConvertor.multiplicationHandler`).

## Model

| member | source | states |
|---|---|---|
| Handlers.Calculate | OperationHandlers/BinaryOperationHandlers.cs:10-53 | the calculation fails exactly when dividing or taking a remainder by zero, and the failure is "Divided By Zero"; a quotient times the divisor gives back the dividend; a remainder is the truncated remainder of the operands |
| Handlers.Remainder | OperationHandlers/BinaryOperationHandlers.cs:44 | `a % b` for a non-zero `b`: `a - r` is an integer multiple of `b`, `r` is smaller than `b` in magnitude, and `r` is zero or has the sign of `a` |
| Handlers.PrecedenceRanks | OperationHandlers/BinaryOperationHandlers.cs:13-51 | `+` ranks below `* / %`, which share one order; that order is below the unary order (2, set at line 5 of OperationHandlers/UnaryOperationHandlers.cs), which is below `^` |
| Handlers.SymbolsDistinct | OperationHandlers/BinaryOperationHandlers.cs:12-50 | no two binary handlers share a symbol |
| Handlers.TotalOperations | OperationHandlers/BinaryOperationHandlers.cs:10-53 | addition and multiplication never fail and do not depend on operand order; power never fails and returns the power function's value |
| Handlers.UnaryCalculate | OperationHandlers/UnaryOperationHandlers.cs:13 | negation always succeeds, and its result added to the operand gives zero |
| Handlers.NegateSymbol | OperationHandlers/UnaryOperationHandlers.cs:12 | the negate handler's symbol is the one-character string `-` |
| Handlers.NegateTwice | OperationHandlers/UnaryOperationHandlers.cs:13 | negating twice gives back the operand |
| Analyzer.FinishConstructWord | SyntaxAnalyzer.cs:121-136 | finishing a token fails exactly when a token is open, is not empty and does not end in a digit just before `i`; the error is "Unknown Word" spanning the token; on success no token is open |
| Analyzer.ShiftIsDivision | SyntaxAnalyzer.cs:129-130 | scaling the mantissa one decimal place at a time equals dividing it by 10 to the power of the point depth |
| Analyzer.PushOp | SyntaxAnalyzer.cs:240-262 | a reduction succeeds exactly when the stack holds as many operands as the operator takes; the operands below are untouched and the stack shrinks by the arity less one; the new top is the binary node of the operator with the second operand from the top as left child, the top one as right child, spanning from the left child's start to the right child's end, or the unary node spanning from the operator's start to its operand's end; on failure the stack is left empty |
| Analyzer.PushOpKeepsLeaves | SyntaxAnalyzer.cs:240-262 | a successful reduction keeps the literals of the operand stack, in order |
| Analyzer.AddBinaryOperation | SyntaxAnalyzer.cs:138-153 | fails with "Empty Operation" exactly when there is no operand, otherwise only with "Invalid Operation", at the operator's index; on success the new operator is on top with its layer and order, at most one pending operator was removed, and nothing but the stacks changed |
| Analyzer.AddBinaryRule | SyntaxAnalyzer.cs:142-152 | the top pending operator is reduced exactly when it sits in a deeper layer, or in the same layer with an order at least as high; "Invalid Operation" is raised exactly when such a reduction finds too few operands; after a reduction the operator is replaced by the new one and the operand stack is the one `PushOp` leaves; without one the new operator is pushed and the operands are untouched |
| Analyzer.AddBinaryKeepsLeaves | SyntaxAnalyzer.cs:138-153 | adding an operator keeps the literals of the operand stack, in order |
| Analyzer.Drain | SyntaxAnalyzer.cs:233-234 | draining the pending operators leaves operands exactly when the stack holds more operands than the binary operators consume, one each; the operand stack is then shorter by that count, with the operands below the new top untouched, and otherwise it is left empty |
| Analyzer.DrainLastInFirstOut | SyntaxAnalyzer.cs:233-234 | the pending operators are drained last in first out: draining `below + top` is draining `top` first, then `below` |
| Analyzer.DrainKeepsLeaves | SyntaxAnalyzer.cs:233-234 | reducing the pending operators at the end of the line keeps the literals of the operand stack, in order |
| Tokens.SpanAgrees | SyntaxAnalyzer.cs:206-213 | the mantissa accumulated digit by digit is the integer the token's digits spell, and the point depth is the number of digits after the decimal point |
| AnalyzerImpl.SyntaxAnalyzer.constructor | SyntaxAnalyzer.cs:91-107 | a new analyzer starts with empty stacks and the scan variables at their initial values |
| AnalyzerImpl.SyntaxAnalyzer.StartConstructWord | SyntaxAnalyzer.cs:109-119 | the new state is the specification's token start: nothing changes while a token is open |
| AnalyzerImpl.SyntaxAnalyzer.FinishConstructWord | SyntaxAnalyzer.cs:121-136 | the error and new state are those of `Analyzer.FinishConstructWord` |
| AnalyzerImpl.SyntaxAnalyzer.PushOp | SyntaxAnalyzer.cs:240-262 | the outcome and new operand stack are those of `Analyzer.PushOp` |
| AnalyzerImpl.SyntaxAnalyzer.AddBinaryOperation | SyntaxAnalyzer.cs:138-153 | the error and new state are those of `Analyzer.AddBinaryOperation` |
| AnalyzerImpl.SyntaxAnalyzer.StartNumber | SyntaxAnalyzer.cs:164-173 | the error and new state for a digit or `.` are those of the specification's number start |
| AnalyzerImpl.SyntaxAnalyzer.OpenBracket | SyntaxAnalyzer.cs:180-190 | the error and new state for `(` are those of `Analyzer.OpenBracket` |
| AnalyzerImpl.SyntaxAnalyzer.CloseBracket | SyntaxAnalyzer.cs:191-200 | the error and new state for `)` are those of `Analyzer.CloseBracket` |
| AnalyzerImpl.SyntaxAnalyzer.OtherCharacter | SyntaxAnalyzer.cs:214-227 | the error and new state for an operator or unknown character are those of `Analyzer.OtherCharacter` |
| AnalyzerImpl.SyntaxAnalyzer.ConsumeCharacter | SyntaxAnalyzer.cs:157-228 | one turn of the loop leaves the error and state of `Analyzer.Step` |
| AnalyzerImpl.SyntaxAnalyzer.Reset | SyntaxAnalyzer.cs:96-107 | both stacks are emptied and the scan variables take their initial values |
| AnalyzerImpl.SyntaxAnalyzer.ScanLine | SyntaxAnalyzer.cs:155-229 | without an error, the fields hold the state `Analyzer.Scan` reaches over the whole line; with one, that error is the error of the whole analysis |
| AnalyzerImpl.SyntaxAnalyzer.EndOfLine | SyntaxAnalyzer.cs:231-237 | from the state after the loop, returns exactly what `Analyzer.Analysis` returns |
| AnalyzerImpl.SyntaxAnalyzer.DrainStacks | SyntaxAnalyzer.cs:233-234 | the operand stack becomes `Analyzer.Drain` of the pending and finished stacks, last in first out; the pending stack keeps only a bottom part of itself, and is empty whenever an operand remains |
| AnalyzerImpl.SyntaxAnalyzer.Analysis | SyntaxAnalyzer.cs:94-238 | the method returns exactly `Analyzer.Analysis(text, t)` |
| AnalyzerProofs.ScanInvariant | SyntaxAnalyzer.cs:155-229 | every state the loop reaches satisfies the invariant: the layer equals the bracket balance and is not negative; only binary operators are pending; the operands are well-formed trees over ordered, non-overlapping spans of the completed part of the line, whose literals stand for their tokens and cover every digit read; an open number matches the text read so far, mantissa and point depth included |
| AnalyzerProofs.StepPreserves | SyntaxAnalyzer.cs:157-228 | one successful turn of the loop preserves the invariant |
| AnalyzerProofs.ScanFailurePersists | SyntaxAnalyzer.cs:155-229 | the first error the loop meets is the error of the whole analysis |
| AnalyzerProofs.TreeLiterals | SyntaxAnalyzer.cs:38-46 | a well-formed tree's literals lie inside its span, in order and without overlap, each standing for its token |
| AnalyzerProofs.AnalysisTreeShape | SyntaxAnalyzer.cs:231-237 | a successful analysis returns a tree with no unary node, every binary node spanning from its left operand's start to its right operand's end, inside the line |
| AnalyzerProofs.AnalysisLiteralValues | SyntaxAnalyzer.cs:206-213 | every literal of the result covers a number token of the line and has that token's value (digits as an integer, divided by 10 per digit after the point); the literals appear in text order without overlap |
| AnalyzerProofs.AnalysisKeepsEveryDigit | SyntaxAnalyzer.cs:206-213 | every non-whitespace digit of the line lies inside some literal of the result |
| AnalyzerProofs.AnalysisErrorSpan | SyntaxAnalyzer.cs:264-274 | every error is an "Unknown Word" spanning part of the line, a one-character error at a character of the line, or the end-of-line error on the last character |
| AnalyzerProofs.LayerTracksBrackets | SyntaxAnalyzer.cs:189-199 | during the scan, the layer equals the number of `(` read minus the number of `)` read, and is never negative |
| AnalyzerProofs.AnalysisBracketsNeverNegative | SyntaxAnalyzer.cs:191-192 | in a line that is accepted, no prefix has more `)` than `(` |
| AnalyzerProofs.UnmatchedCloseReported | SyntaxAnalyzer.cs:191-192 | a `)` with no open bracket before it fails the analysis with "Too Many Closing Backets" at that character |
| AnalyzerProofs.EmptyBracketsReported | SyntaxAnalyzer.cs:191-197 | a `)` that follows, past any whitespace, a `(` or an operator (as in `()`, `( )` and `(1+)`) with a bracket open fails the analysis with "Empty Backets" at the `)` |
| AnalyzerProofs.TwoNumbersReported | SyntaxAnalyzer.cs:164-172 | two numbers separated only by whitespace fail with "two numbers back to back" at the second number's first character, a digit or a point |
| AnalyzerProofs.SecondPointReported | SyntaxAnalyzer.cs:201-202 | a second decimal point in one number fails with "Too many decimal point" at that point |
| AnalyzerProofs.TrailingNonDigitReported | SyntaxAnalyzer.cs:155-232 | a number already open whose last character is `.` or `,`, followed by the end of the line, by whitespace, or by any character that cannot continue a number (a `)` only inside a bracket), fails: with "Too many decimal point" at a second point, otherwise with "Unknown Word" over the number |
| AnalyzerProofs.LonePointReported | SyntaxAnalyzer.cs:164-232 | a `.` read with no token open and no operand just before it (as in `.`, `1+.` or `( .)`), followed by the end of the line, whitespace or a character that cannot continue a number, fails with "Unknown Word" over that one character |
| AnalyzerProofs.UnknownCharacterFails | SyntaxAnalyzer.cs:214-223 | a character that is not whitespace, part of a number, a bracket or an operator symbol makes the analysis fail |
| AnalyzerProofs.WordPersists | SyntaxAnalyzer.cs:214-223 | once an unknown character starts a word, every later state of a scan that has not failed is still reading that word |
| AnalyzerProofs.BracketAfterNumber | SyntaxAnalyzer.cs:180-190 | `(` after a completed number, whether it ends right before the `(` or was already completed by whitespace or `)`, pushes the implicit multiplication at the current layer with its order, then goes one layer deeper |
| AnalyzerProofs.CloseLeavesOperand | SyntaxAnalyzer.cs:191-200 | a `)` read without error leaves no token open and a number as the last word, so what follows it is read as after a number |
| AnalyzerProofs.OperatorTaggedWithDepth | SyntaxAnalyzer.cs:214-227 | an operator symbol is pushed with the bracket depth at its position (the `(` read minus the `)` read before it) and with its own order |
| AnalyzerExamples.SingleReduction | SyntaxAnalyzer.cs:142-150 | `1*2^3+4` is read as `1*((2^3)+4)`: adding an operator reduces at most one pending operator |
| AnalyzerExamples.GroupsMultiply | SyntaxAnalyzer.cs:180-200 | `(1)(2)` is read as the product of 1 and 2, spanning indices 1 to 5 |
| AnalyzerExamples.DigitAfterGroupFails | SyntaxAnalyzer.cs:164-172 | `(1)2` fails with "two numbers back to back" at the `2` |
| AnalyzerExamples.BracketGroups | SyntaxAnalyzer.cs:180-227 | `2*(3+4)` is read as 2 times the sum of 3 and 4: the `+` inside the bracket sits one layer deeper, so it does not reduce the `*` |
| AnalyzerExamples.UnclosedBracketAccepted | SyntaxAnalyzer.cs:231-237 | `(1` is accepted as the literal 1: an unclosed bracket is not an error |

The specification functions below have no contract of their own; each
models the source lines given, and the members listed state its
properties.

- `Analyzer.Analysis` (SyntaxAnalyzer.cs:94-238): the whole analysis of a line. Its properties are stated by `AnalysisTreeShape`, `AnalysisLiteralValues`, `AnalysisKeepsEveryDigit`, `AnalysisErrorSpan`, `AnalysisBracketsNeverNegative` and the `...Reported` lemmas; the class method `AnalyzerImpl.SyntaxAnalyzer.Analysis` is proved equal to it.
- `Analyzer.Scan` (SyntaxAnalyzer.cs:155-229): the loop over a prefix of the line. See `ScanInvariant`, `ScanFailurePersists`, `LayerTracksBrackets`, `WordPersists` and `AnalyzerImpl.SyntaxAnalyzer.ScanLine`.
- `Analyzer.Step` (SyntaxAnalyzer.cs:157-228): one turn of the loop. See `StepPreserves` and `AnalyzerImpl.SyntaxAnalyzer.ConsumeCharacter`.
- `Analyzer.NumberStart` (SyntaxAnalyzer.cs:164-173): a digit or `.` closes an open word and opens a number, or fails after a number. See `TwoNumbersReported` and `AnalyzerImpl.SyntaxAnalyzer.StartNumber`.
- `Analyzer.OpenBracket` (SyntaxAnalyzer.cs:180-190): see `BracketAfterNumber`, `GroupsMultiply`, `OpenBracketPreserves` and `AnalyzerImpl.SyntaxAnalyzer.OpenBracket`.
- `Analyzer.CloseBracket` (SyntaxAnalyzer.cs:191-200): see `UnmatchedCloseReported`, `EmptyBracketsReported`, `CloseLeavesOperand`, `CloseBracketPreserves` and `AnalyzerImpl.SyntaxAnalyzer.CloseBracket`.
- `Analyzer.DecimalPoint` (SyntaxAnalyzer.cs:201-205): see `SecondPointReported` and `TrailingNonDigitReported`.
- `Analyzer.Digit` (SyntaxAnalyzer.cs:206-213): see `Tokens.SpanAgrees`, `NumberCharPreserves` and `AnalysisLiteralValues`.
- `Analyzer.OtherCharacter` (SyntaxAnalyzer.cs:214-227): see `OperatorTaggedWithDepth`, `OperatorPreserves`, `UnknownCharacterFails` and `AnalyzerImpl.SyntaxAnalyzer.OtherCharacter`.
- `Analyzer.StartConstructWord` (SyntaxAnalyzer.cs:109-119): see `AnalyzerImpl.SyntaxAnalyzer.StartConstructWord` and the token part of `ScanInvariant`.
- `Analyzer.LiteralValue` (SyntaxAnalyzer.cs:129-131): a literal's value, its digits as an integer divided by 10 per digit after the point. See `ShiftIsDivision` and `AnalysisLiteralValues`.
- `Analyzer.Reduces` (SyntaxAnalyzer.cs:145): the reduction rule. See `AddBinaryRule`.

## Left out

- Floating point: numbers, quotients and remainders are exact reals. A literal is its digits as an integer divided by a power of ten. `double` rounding, overflow to infinity and NaN are not modelled.
- `Math.Pow` is not modelled: the power handler applies a function passed in as a parameter.
- `char.IsWhiteSpace` and the symbol lookup are parameters of the analysis. So is the handler used for implicit multiplication.
- `SymbolConvertor` is not part of this model. Its symbol lookup and multiplication handler are parameters.
- The evaluator that computes a tree's value is not part of this model. Neither are the Windows Forms front end (`MainForm`, `MyRichTextBox`) and the text of `ErrorMessages`; the messages the analyzer uses are constants here.
- The two operator stacks are static fields in the source, shared by every call. Both the source and the model clear them when an analysis starts, so only the clearing is modelled, not sharing between threads.
- Nodes are immutable values here. The source builds mutable node objects and sets their children and spans after creating them. Aliasing between nodes is therefore not modelled.
- The exception thrown by `ThrowIf` is the `Failure` case of a `Result`. Every method returns the first error, and the caller stops there, as an uncaught exception would.
- The C# `Analysis` is one method with local functions. Here the loop body is split into one method per character kind, and the end of the line into `EndOfLine` and `DrainStacks`.
- `UnknownOperation` is commented out in the source and is not modelled.
- Unary nodes: `PushOp`'s unary branch is modelled. Nothing in the analyzer ever creates a pending unary operator, and `AnalysisTreeShape` proves that no result contains one.
- Reduction: an operator-precedence parser normally reduces in a loop while the precedence rule holds. When an operator is added, the source reduces at most one pending operator (an `if`, lines 142-150 of `SyntaxAnalyzer.cs`). The model follows the code, and `AnalyzerExamples.SingleReduction` shows a line where the two readings differ.
- Character indices: the source indexes a `string` by UTF-16 code unit, so a character outside the Basic Multilingual Plane takes two indices. Here a string is a sequence of Unicode scalar values with one index each, so error spans and node spans after such a character differ from the source's.
- An unclosed `(` is accepted, as in the source; `AnalyzerExamples.UnclosedBracketAccepted` shows it.
- An empty line fails with "finished Op is not 1" at index -1, as the source computes it (`text.Length - 1`). `AnalyzerProofs.AnalysisErrorSpan` covers this case.
- AnalyzerProofs.UnknownCharacterFails: proves that the analysis fails, not which error it reports. The error depends on what follows the character. For example, a later `)` at layer 0 is reported as "Too Many Closing Backets" before the word is closed.
