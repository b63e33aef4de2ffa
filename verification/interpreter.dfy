/** The execution context and the execution loop of main.c:
    `createContext`, `callSymbol` and `exec`. */
module Interpreter {
  import opened Wrappers
  import opened CLib
  import opened Objects
  import opened Stack
  import opened FunctionTable
  import opened Builtins

  /** An execution context: one operand stack and one function table. */
  datatype Context = Context(stack: Stack, table: Table)

  /** The registrations `createContext` performs, in order (`%` twice). */
  const BuiltinRegistrations: seq<(string, Callback)> := [
    ("+", MathBuiltin), ("-", MathBuiltin), ("*", MathBuiltin), ("/", MathBuiltin),
    ("%", MathBuiltin), ("%", MathBuiltin), ("dup", DupBuiltin)
  ]

  function Builtin(name: string, cb: Callback): Entry
  {
    Entry(Text(Str, name), cb)
  }

  /** The table `createContext` builds, entry by entry. */
  const BuiltinTable: Table := [
    Builtin("+", MathBuiltin), Builtin("-", MathBuiltin), Builtin("*", MathBuiltin),
    Builtin("/", MathBuiltin), Builtin("%", MathBuiltin), Builtin("dup", DupBuiltin)
  ]

  /** The seven registrations produce the six-entry table: the second `%`
      finds the first and replaces its callback in place. */
  lemma BuiltinRegistrationsTable()
    ensures RegisterAll([], BuiltinRegistrations) == BuiltinTable
  {
    var b := BuiltinTable;
    var regs := BuiltinRegistrations;
    var t1 := RegisterFunction([], "+", MathBuiltin);
    assert t1 == b[..1];
    var t2 := RegisterFunction(t1, "-", MathBuiltin);
    assert "-" !in Names(t1);
    assert t2 == b[..2];
    var t3 := RegisterFunction(t2, "*", MathBuiltin);
    assert "*" !in Names(t2);
    assert t3 == b[..3];
    var t4 := RegisterFunction(t3, "/", MathBuiltin);
    assert "/" !in Names(t3);
    assert t4 == b[..4];
    var t5 := RegisterFunction(t4, "%", MathBuiltin);
    assert "%" !in Names(t4);
    assert t5 == b[..5];
    var t6 := RegisterFunction(t5, "%", MathBuiltin);
    assert GetFunctionByName(t5, Text(Str, "%")) == Some(4) by {
      assert Names(t5)[4] == "%";
    }
    assert t6 == t5;
    var t7 := RegisterFunction(t6, "dup", DupBuiltin);
    assert "dup" !in Names(t6);
    assert t7 == b;
    RegisterAllStep([], 0);
    RegisterAllStep(t1, 1);
    RegisterAllStep(t2, 2);
    RegisterAllStep(t3, 3);
    RegisterAllStep(t4, 4);
    RegisterAllStep(t5, 5);
    RegisterAllStep(t6, 6);
    assert regs[7..] == [];
  }

  /** One registration of the sequence, taken from position `k`. */
  lemma RegisterAllStep(t: Table, k: nat)
    requires k < |BuiltinRegistrations|
    ensures var r := BuiltinRegistrations[k];
            RegisterAll(t, BuiltinRegistrations[k..]) ==
              RegisterAll(RegisterFunction(t, r.0, r.1), BuiltinRegistrations[k + 1..])
  {
    assert BuiltinRegistrations[k..][1..] == BuiltinRegistrations[k + 1..];
  }

  lemma BuiltinTableShape()
    ensures DistinctNames(BuiltinTable)
    ensures Names(BuiltinTable) == ["+", "-", "*", "/", "%", "dup"]
    ensures forall i :: 0 <= i < 5 ==> BuiltinTable[i].callback == MathBuiltin
    ensures BuiltinTable[5].callback == DupBuiltin
  {
    var ns := Names(BuiltinTable);
    assert ns == ["+", "-", "*", "/", "%", "dup"];
  }

  /** `createContext`: an empty stack and the built-ins. Registering `%` a
      second time replaces its entry, so six entries remain. */
  function CreateContext(): (c: Context)
    ensures c.stack == []
    ensures DistinctNames(c.table)
    ensures Names(c.table) == ["+", "-", "*", "/", "%", "dup"]
    ensures forall i :: 0 <= i < 5 ==> c.table[i].callback == MathBuiltin
    ensures c.table[5].callback == DupBuiltin
  {
    BuiltinRegistrationsTable();
    BuiltinTableShape();
    Context([], RegisterAll([], BuiltinRegistrations))
  }

  /** The number of operands a callback needs on the stack to succeed. */
  function Arity(cb: Callback): nat
  {
    match cb
    case MathBuiltin => 2
    case DupBuiltin => 1
    case NoCallback => 0
  }

  /** The change in stack depth a successful callback makes. */
  function StackEffect(cb: Callback): int
  {
    match cb
    case MathBuiltin => -1
    case DupBuiltin => 1
    case NoCallback => 0
  }

  /** The callback a symbol dispatches to, if the table names it. */
  function Resolve(t: Table, name: string): Option<Callback>
  {
    match GetFunctionByName(t, Text(Symbol, name))
    case None => None
    case Some(i) => Some(t[i].callback)
  }

  /** The names of the five arithmetic operators. */
  predicate IsOperator(name: string)
  {
    |name| == 1 && name[0] in "+-*/%"
  }

  /** In a table without duplicate names, a name at position `i` resolves
      to the callback stored there. */
  lemma ResolveAt(t: Table, name: string, i: nat)
    requires DistinctNames(t) && i < |t| && Names(t)[i] == name
    ensures Resolve(t, name) == Some(t[i].callback)
  {
    var r := GetFunctionByName(t, Text(Symbol, name));
    assert r.Some?;
  }

  /** A name the table does not carry resolves to nothing. */
  lemma ResolveAbsent(t: Table, name: string)
    requires name !in Names(t)
    ensures Resolve(t, name) == None
  {
  }

  /** The operator names, one by one. */
  lemma OperatorNames(name: string)
    ensures IsOperator(name) <==> name in ["+", "-", "*", "/", "%"]
  {
    if IsOperator(name) {
      assert name == [name[0]];
    }
  }

  /** The shape `createContext` gives its table. */
  predicate BuiltinShape(t: Table)
  {
    && DistinctNames(t)
    && Names(t) == ["+", "-", "*", "/", "%", "dup"]
    && (forall i :: 0 <= i < 5 ==> t[i].callback == MathBuiltin)
    && t[5].callback == DupBuiltin
  }

  /** Dispatch in any table of that shape. */
  lemma DispatchInShape(t: Table, name: string)
    requires BuiltinShape(t)
    ensures Resolve(t, name) ==
              if IsOperator(name) then Some(MathBuiltin)
              else if name == "dup" then Some(DupBuiltin)
              else None
  {
    OperatorNames(name);
    if name == "+" { ResolveAt(t, name, 0); }
    else if name == "-" { ResolveAt(t, name, 1); }
    else if name == "*" { ResolveAt(t, name, 2); }
    else if name == "/" { ResolveAt(t, name, 3); }
    else if name == "%" { ResolveAt(t, name, 4); }
    else if name == "dup" { ResolveAt(t, name, 5); }
    else { ResolveAbsent(t, name); }
  }

  /** The fresh context dispatches the five operators to the arithmetic
      built-in, `dup` to the duplicating one, and knows no other name. */
  lemma BuiltinDispatch(name: string)
    ensures Resolve(CreateContext().table, name) ==
              if IsOperator(name) then Some(MathBuiltin)
              else if name == "dup" then Some(DupBuiltin)
              else None
  {
    DispatchInShape(CreateContext().table, name);
  }

  /** Calling the symbol does not divide by zero. */
  predicate CallDefined(t: Table, name: string, s: Stack)
  {
    Resolve(t, name) == Some(MathBuiltin) ==> MathDefined(name, s)
  }

  /** `callSymbol`: look the symbol up and run its callback with the symbol's
      own text as the name; an unknown symbol fails, a NULL callback succeeds
      without doing anything. */
  function CallSymbol(t: Table, name: string, s: Stack): (r: Outcome)
    requires CallDefined(t, name, s)
    ensures Resolve(t, name).None? ==> !r.ok
    ensures Resolve(t, name).Some? ==> (r.ok <==> |s| >= Arity(Resolve(t, name).value))
    ensures !r.ok ==> r.stack == s
    ensures r.ok ==> |r.stack| == |s| + StackEffect(Resolve(t, name).value)
    ensures r.ok ==> r.stack[..|s| - Arity(Resolve(t, name).value)] == s[..|s| - Arity(Resolve(t, name).value)]
  {
    match GetFunctionByName(t, Text(Symbol, name))
    case None => Outcome(false, s)
    case Some(i) =>
      match t[i].callback
      case MathBuiltin => BasicMathFunction(s, name)
      case DupBuiltin => Duplicate(s)
      case NoCallback => Outcome(true, s)
  }

  /** Running the program from this point on never divides by zero. */
  predicate ExecDefined(t: Table, prog: seq<Value>, s: Stack)
    decreases |prog|
  {
    if |prog| == 0 then true
    else match prog[0]
      case Int(n) => ExecDefined(t, prog[1..], ListPush(s, n))
      case Sym(name) =>
        && CallDefined(t, name, s)
        && var o := CallSymbol(t, name, s);
           o.ok ==> ExecDefined(t, prog[1..], o.stack)
  }

  /** `exec`: push each literal, dispatch each symbol, and stop at the first
      symbol that fails, returning the stack as it stands at that point. A
      successful run changes the stack depth by the program's net effect. */
  function Exec(t: Table, prog: seq<Value>, s: Stack): (r: Outcome)
    requires ExecDefined(t, prog, s)
    ensures r.ok ==> |r.stack| == |s| + NetEffect(t, prog)
    decreases |prog|
  {
    if |prog| == 0 then Outcome(true, s)
    else match prog[0]
      case Int(n) => Exec(t, prog[1..], ListPush(s, n))
      case Sym(name) =>
        var o := CallSymbol(t, name, s);
        if !o.ok then Outcome(false, o.stack)
        else Exec(t, prog[1..], o.stack)
  }

  /** A program of literals succeeds and leaves them on the stack in source order. */
  lemma {:induction false} ExecLiterals(t: Table, xs: seq<int>, s: Stack)
    ensures ExecDefined(t, IntLiterals(xs), s)
    ensures Exec(t, IntLiterals(xs), s) == Outcome(true, s + xs)
    decreases |xs|
  {
    if |xs| > 0 {
      IntLiteralsTail(xs);
      PushThenRest(s, xs);
      ExecLiterals(t, xs[1..], ListPush(s, xs[0]));
    }
  }

  /** Running `p` then `q` is running `p + q`, except that a failure in `p`
      ends the run there: nothing of `q` is processed and the stack is the one
      `p` failed with. */
  lemma {:induction false} ExecAppend(t: Table, p: seq<Value>, q: seq<Value>, s: Stack)
    requires ExecDefined(t, p + q, s)
    ensures ExecDefined(t, p, s)
    ensures Exec(t, p, s).ok ==> ExecDefined(t, q, Exec(t, p, s).stack)
    ensures Exec(t, p + q, s) ==
              if Exec(t, p, s).ok then Exec(t, q, Exec(t, p, s).stack) else Exec(t, p, s)
    decreases |p|
  {
    if |p| > 0 {
      assert (p + q)[0] == p[0];
      assert (p + q)[1..] == p[1..] + q;
      match p[0]
      case Int(n) =>
        ExecAppend(t, p[1..], q, ListPush(s, n));
      case Sym(name) =>
        var o := CallSymbol(t, name, s);
        if o.ok {
          ExecAppend(t, p[1..], q, o.stack);
        }
    } else {
      assert p + q == q;
    }
  }

  /** Running `p + q` is defined when running `p` is, and running `q` is
      from wherever a successful `p` leaves the stack. */
  lemma {:induction false} ExecDefinedAppend(t: Table, p: seq<Value>, q: seq<Value>, s: Stack)
    requires ExecDefined(t, p, s)
    requires Exec(t, p, s).ok ==> ExecDefined(t, q, Exec(t, p, s).stack)
    ensures ExecDefined(t, p + q, s)
    decreases |p|
  {
    if |p| > 0 {
      assert (p + q)[0] == p[0];
      assert (p + q)[1..] == p[1..] + q;
      match p[0]
      case Int(n) =>
        ExecDefinedAppend(t, p[1..], q, ListPush(s, n));
      case Sym(name) =>
        var o := CallSymbol(t, name, s);
        if o.ok {
          ExecDefinedAppend(t, p[1..], q, o.stack);
        }
    } else {
      assert p + q == q;
    }
  }

  /** A failing run stopped at a symbol `p[k]`: everything before it ran
      successfully, the call of `p[k]` failed, and the stack is exactly the
      one that call saw. */
  lemma {:induction false} ExecHaltsAtFirstFailure(t: Table, p: seq<Value>, s: Stack) returns (k: nat)
    requires ExecDefined(t, p, s)
    requires !Exec(t, p, s).ok
    ensures k < |p| && p[k].Sym?
    ensures ExecDefined(t, p[..k], s) && Exec(t, p[..k], s).ok
    ensures var before := Exec(t, p[..k], s).stack;
            && CallDefined(t, p[k].name, before)
            && !CallSymbol(t, p[k].name, before).ok
            && Exec(t, p, s).stack == before
    decreases |p|
  {
    var s1: Stack;
    match p[0] {
      case Int(n) =>
        s1 := ListPush(s, n);
      case Sym(name) =>
        var o := CallSymbol(t, name, s);
        if !o.ok {
          k := 0;
          assert p[..k] == [];
          return;
        }
        s1 := o.stack;
    }
    ExecFirstStep(t, p, s, s1);
    var k' := ExecHaltsAtFirstFailure(t, p[1..], s1);
    k := k' + 1;
    ExecPrefixStep(t, p, s, s1, k');
  }

  /** The first element of a program takes the stack `s` to `s1` without failing. */
  predicate StepsTo(t: Table, v: Value, s: Stack, s1: Stack)
  {
    match v
    case Int(n) => s1 == ListPush(s, n)
    case Sym(name) => CallDefined(t, name, s) && CallSymbol(t, name, s) == Outcome(true, s1)
  }

  /** After a successful first step, the run goes on with the rest of the program. */
  lemma ExecFirstStep(t: Table, p: seq<Value>, s: Stack, s1: Stack)
    requires |p| > 0 && StepsTo(t, p[0], s, s1)
    ensures ExecDefined(t, p, s) == ExecDefined(t, p[1..], s1)
    ensures ExecDefined(t, p, s) ==> Exec(t, p, s) == Exec(t, p[1..], s1)
  {
  }

  /** The same holds of every non-empty prefix of the program. */
  lemma ExecPrefixStep(t: Table, p: seq<Value>, s: Stack, s1: Stack, j: nat)
    requires j < |p| && StepsTo(t, p[0], s, s1)
    ensures ExecDefined(t, p[..j + 1], s) == ExecDefined(t, p[1..][..j], s1)
    ensures ExecDefined(t, p[..j + 1], s) ==> Exec(t, p[..j + 1], s) == Exec(t, p[1..][..j], s1)
  {
    var q := p[..j + 1];
    assert q[0] == p[0];
    assert q[1..] == p[1..][..j];
    ExecFirstStep(t, q, s, s1);
  }

  /** The stack depth a program changes by when it runs to completion,
      counted from the stack effects of its literals and symbols. */
  function NetEffect(t: Table, p: seq<Value>): int
    decreases |p|
  {
    if |p| == 0 then 0
    else
      var e := match p[0]
        case Int(_) => 1
        case Sym(name) => (match Resolve(t, name) case Some(cb) => StackEffect(cb) case None => 0);
      e + NetEffect(t, p[1..])
  }
}
