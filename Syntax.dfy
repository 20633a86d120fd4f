/** The expression tree, the pending operators, the syntax error and the
    result type shared by the analyzer's specification and its implementation. */
module Syntax {
  import opened Handlers

  /** Messages of the syntax errors (the source's ErrorMessages table and the
      literals written inline in the analyzer). */
  const TooManyBackets: string := "Too Many Closing Backets"
  const EmptyOperation: string := "Empty Operation"
  const InvalidOperation: string := "Invalid Operation"
  const UnknownWord: string := "Unknown Word"
  const TwoNumbersBackToBack: string := "two numbers back to back"
  const EmptyBackets: string := "Empty Backets"
  const TooManyDecimalPoint: string := "Too many decimal point"
  const FinishedOpIsNot1: string := "finished Op is not 1"

  datatype Option<T> = None | Some(value: T)

  /** A completed operand: a literal, or an operator node with its operands
      attached. Every node carries the half-open span [startChar, endChar) of
      the line it was built from. */
  datatype Node =
    | Literal(value: real, startChar: int, endChar: int)
    | Unary(unaryHandler: UnaryHandler, inside: Node, startChar: int, endChar: int)
    | Binary(handler: BinaryHandler, left: Node, right: Node, startChar: int, endChar: int)

  /** An operator waiting on the pending stack, tagged with the bracket depth
      (layer) at which it was read and its precedence order. */
  datatype Operation =
    | PendingBinary(handler: BinaryHandler, layer: int, order: int)
    | PendingUnary(unaryHandler: UnaryHandler, layer: int, order: int, startChar: int)

  /** A syntax error: a message and the half-open span it points at. */
  datatype SyntaxError = SyntaxError(message: string, startIndex: int, endIndex: int)

  /** The error thrown for a single character: span [index, index + 1). */
  function ErrorAt(message: string, index: int): (e: SyntaxError)
    ensures e.message == message && e.startIndex == index && e.endIndex == index + 1
  {
    SyntaxError(message, index, index + 1)
  }

  datatype Result<T> = Success(value: T) | Failure(error: SyntaxError) {
    predicate IsFailure() {
      Failure?
    }

    function PropagateFailure<U>(): Result<U>
      requires Failure?
    {
      Failure(error)
    }

    function Extract(): T
      requires Success?
    {
      value
    }
  }

  /** The literals of a tree, left to right. */
  ghost function Leaves(n: Node): seq<Node>
  {
    match n
    case Literal(_, _, _) => [n]
    case Unary(_, inside, _, _) => Leaves(inside)
    case Binary(_, left, right, _, _) => Leaves(left) + Leaves(right)
  }

  /** The literals of a stack of trees, bottom to top, left to right. */
  ghost function LeavesOf(stack: seq<Node>): seq<Node>
  {
    if stack == [] then [] else LeavesOf(stack[..|stack| - 1]) + Leaves(stack[|stack| - 1])
  }

  lemma LeavesOfPush(stack: seq<Node>, n: Node)
    ensures LeavesOf(stack + [n]) == LeavesOf(stack) + Leaves(n)
  {
    assert (stack + [n])[..|stack|] == stack;
  }

  /** No unary node anywhere in the tree. */
  ghost predicate NoUnary(n: Node)
  {
    match n
    case Literal(_, _, _) => true
    case Unary(_, _, _, _) => false
    case Binary(_, left, right, _, _) => NoUnary(left) && NoUnary(right)
  }

  /** Spans nest: a binary node spans from the start of its left operand to
      the end of its right operand, which follows the left one. */
  ghost predicate WellFormed(n: Node)
  {
    match n
    case Literal(_, s, e) => s < e
    case Unary(_, inside, _, e) => WellFormed(inside) && e == inside.endChar
    case Binary(_, left, right, s, e) =>
      && WellFormed(left) && WellFormed(right)
      && s == left.startChar && e == right.endChar
      && left.endChar <= right.startChar
  }
}
