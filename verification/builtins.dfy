/** The standard library of main.c: `basicMathFunction` and `duplicate`.
    Each takes the operand stack and the name of the symbol that invoked
    it, and returns the C status (0 success, 1 failure) as `ok` together
    with the stack it leaves behind. */
module Builtins {
  import opened CLib
  import opened Stack

  /** A built-in's verdict and the stack after it. `ok` is the C return value 0. */
  datatype Outcome = Outcome(ok: bool, stack: Stack)

  /** The `switch` on the symbol's first character. A name that is none of
      the five operators leaves the result at its initial 0. Division and
      remainder truncate toward zero, as in C. */
  function Arith(op: char, a: int, b: int): (r: int)
    requires (op == '/' || op == '%') ==> b != 0
    ensures op == '+' ==> r == a + b
    ensures op == '-' ==> r == a - b
    ensures op == '*' ==> r == a * b
    ensures op == '/' ==> Abs(r) == Abs(a) / Abs(b)
    ensures op == '/' ==> (r > 0 ==> (a > 0) == (b > 0)) && (r < 0 ==> (a > 0) != (b > 0))
    ensures op == '%' ==> CDiv(a, b) * b + r == a && Abs(r) < Abs(b)
    ensures op == '%' ==> (a >= 0 ==> r >= 0) && (a < 0 ==> r <= 0)
    ensures op !in "+-*/%" ==> r == 0
  {
    match op
    case '+' => a + b
    case '-' => a - b
    case '*' => a * b
    case '/' => CDiv(a, b)
    case '%' => CMod(a, b)
    case _ => 0
  }

  /** Division or remainder by zero is undefined in C; the model only runs
      the arithmetic built-in when that cannot happen. */
  predicate MathDefined(name: string, s: Stack)
  {
    |s| >= 2 && (Head(name) == '/' || Head(name) == '%') ==> s[|s| - 1] != 0
  }

  /** `basicMathFunction`: with fewer than two operands, fail and leave the
      stack alone; otherwise pop the right operand `b`, then the left operand
      `a`, and push `a op b`. */
  function BasicMathFunction(s: Stack, name: string): (r: Outcome)
    requires MathDefined(name, s)
    ensures r.ok <==> |s| >= 2
    ensures !r.ok ==> r.stack == s
    ensures r.ok ==>
              && |r.stack| == |s| - 1
              && r.stack[..|s| - 2] == s[..|s| - 2]
              && r.stack[|s| - 2] == Arith(Head(name), s[|s| - 2], s[|s| - 1])
  {
    if StackLength(s) < 2 then Outcome(false, s)
    else
      var (s1, b) := StackPop(s).value;
      var (s2, a) := StackPop(s1).value;
      Outcome(true, StackPush(s2, Arith(Head(name), a, b)))
  }

  /** `duplicate`: fail on an empty stack, otherwise push the top again. */
  function Duplicate(s: Stack): (r: Outcome)
    ensures r.ok <==> |s| > 0
    ensures !r.ok ==> r.stack == s
    ensures r.ok ==> |r.stack| == |s| + 1 && r.stack[..|s|] == s && r.stack[|s|] == s[|s| - 1]
  {
    if StackLength(s) == 0 then Outcome(false, s)
    else Outcome(true, StackPush(s, s[|s| - 1]))
  }
}
