/** The operand stack of an execution context (`stackLength`, `stackPop`,
    `stackPush`). Parsed programs push only integer objects and the built-ins
    only compute integers, so the stack is a sequence of integers with its
    top at the end. */
module Stack {
  import opened Wrappers
  import opened Objects

  type Stack = seq<int>

  /** `stackLength` */
  function StackLength(s: Stack): (n: nat)
    ensures n == |s|
  {
    |s|
  }

  /** `stackPush`: `listPush` onto the stack. */
  function StackPush(s: Stack, x: int): (r: Stack)
    ensures |r| == |s| + 1
    ensures r[..|s|] == s && r[|s|] == x
  {
    ListPush(s, x)
  }

  /** `stackPop`: `None` (NULL) on an empty stack, otherwise the stack
      without its top and the top itself. */
  function StackPop(s: Stack): (r: Option<(Stack, int)>)
    ensures r.None? <==> |s| == 0
    ensures r.Some? ==> r.value.0 + [r.value.1] == s
  {
    if StackLength(s) == 0 then None
    else Some((s[..|s| - 1], s[|s| - 1]))
  }

  /** Popping undoes pushing. */
  lemma PopPush(s: Stack, x: int)
    ensures StackPop(StackPush(s, x)) == Some((s, x))
  {
    var t := StackPush(s, x);
    assert t[..|t| - 1] == s;
  }

  /** Pushing back what was popped restores the stack. */
  lemma PushPop(s: Stack)
    requires |s| > 0
    ensures StackPop(s).Some?
    ensures StackPush(StackPop(s).value.0, StackPop(s).value.1) == s
  {
  }

  /** `stackLength` counts what push adds and pop takes away: a push adds
      one, pop fails exactly on length zero, and a successful pop removes one. */
  lemma StackLengthPushPop(s: Stack, x: int)
    ensures StackLength(StackPush(s, x)) == StackLength(s) + 1
    ensures StackPop(s).None? <==> StackLength(s) == 0
    ensures StackPop(s).Some? ==> StackLength(StackPop(s).value.0) == StackLength(s) - 1
  {
  }
}
