/** Whole programs, as `main` runs them: compile the text, then execute the
    program in a fresh context. Reading the file and printing are left out. */
module Programs {
  import opened Wrappers
  import opened CLib
  import opened Objects
  import opened Stack
  import opened FunctionTable
  import opened Builtins
  import opened Interpreter
  import opened Parser

  /** Once the text compiles, running it never divides by zero. */
  predicate RunDefined(text: string)
  {
    match Compile(text)
    case None => true
    case Some(p) => ExecDefined(CreateContext().table, p, [])
  }

  /** `main` after reading the file: compile, create the context, execute.
      A text that does not compile gives `None`; `main` would go on to hand
      the NULL program to `exec`. */
  function Run(text: string): (r: Option<Outcome>)
    requires RunDefined(text)
    ensures r.None? <==> Compile(text).None?
  {
    match Compile(text)
    case None => None
    case Some(p) => Some(Exec(CreateContext().table, p, []))
  }

  /** Every integer of `xs` prints shorter than the number-length limit. */
  predicate Printable(xs: seq<int>)
  {
    forall i :: 0 <= i < |xs| ==> |FormatInt(xs[i])| < MaxNumLen
  }

  /** A program of integer literals runs successfully and leaves exactly
      those integers on the stack, in source order. */
  lemma RunLiterals(xs: seq<int>)
    requires Printable(xs)
    ensures RunDefined(Unparse(xs))
    ensures Run(Unparse(xs)) == Some(Outcome(true, xs))
  {
    CompileUnparse(xs);
    var t := CreateContext().table;
    ExecLiterals(t, xs, []);
    NothingAppend(xs);
  }

  /** A one-symbol program run on the stack `s` does what calling the symbol does. */
  lemma ExecOneSymbol(t: Table, w: string, s: Stack)
    requires CallDefined(t, w, s)
    ensures ExecDefined(t, [Sym(w)], s)
    ensures Exec(t, [Sym(w)], s) == CallSymbol(t, w, s)
  {
    assert [Sym(w)][1..] == [];
  }

  /** Printed literals followed by a word compile to the literals and the word's symbol. */
  lemma CompileLiteralsThenWord(xs: seq<int>, w: string)
    requires Printable(xs) && IsWord(w)
    ensures Compile(Unparse(xs) + w) == Some(IntLiterals(xs) + [Sym(w)])
  {
    CompileUnparseThen(xs, w);
    AppendNothing(w);
    CompileWordThen(w, "");
    CompileEmpty();
    AppendNothing([Sym(w)]);
  }

  /** Literals followed by a symbol, run on the empty stack: the symbol is
      called on exactly the literals, and its outcome is the program's. */
  lemma ExecLiteralsThenSymbol(t: Table, xs: seq<int>, w: string)
    requires CallDefined(t, w, xs)
    ensures ExecDefined(t, IntLiterals(xs) + [Sym(w)], [])
    ensures Exec(t, IntLiterals(xs) + [Sym(w)], []) == CallSymbol(t, w, xs)
  {
    ExecLiterals(t, xs, []);
    NothingAppend(xs);
    ExecOneSymbol(t, w, xs);
    ExecDefinedAppend(t, IntLiterals(xs), [Sym(w)], []);
    ExecAppend(t, IntLiterals(xs), [Sym(w)], []);
  }

  /** Literals followed by one word: the literals are pushed, then the word
      is called on exactly those operands, and its outcome is the program's. */
  lemma RunLiteralsThenWord(xs: seq<int>, w: string)
    requires Printable(xs) && IsWord(w)
    requires CallDefined(CreateContext().table, w, xs)
    ensures RunDefined(Unparse(xs) + w)
    ensures Run(Unparse(xs) + w) == Some(CallSymbol(CreateContext().table, w, xs))
  {
    CompileLiteralsThenWord(xs, w);
    ExecLiteralsThenSymbol(CreateContext().table, xs, w);
  }

  /** Calling a symbol in the fresh context runs the built-in its name
      selects: the arithmetic one for an operator, the duplicating one for
      `dup`; any other name fails with the stack untouched. */
  lemma CallBuiltin(w: string, s: Stack)
    requires IsOperator(w) ==> MathDefined(w, s)
    ensures CallDefined(CreateContext().table, w, s)
    ensures CallSymbol(CreateContext().table, w, s) ==
              if IsOperator(w) then BasicMathFunction(s, w)
              else if w == "dup" then Duplicate(s)
              else Outcome(false, s)
  {
    BuiltinDispatch(w);
  }

  /** An operator called on two operands replaces them with `a op b`. */
  lemma CallOperator(a: int, b: int, w: string)
    requires IsOperator(w) && MathDefined(w, [a, b])
    ensures CallDefined(CreateContext().table, w, [a, b])
    ensures CallSymbol(CreateContext().table, w, [a, b]) == Outcome(true, [Arith(w[0], a, b)])
  {
    BuiltinDispatch(w);
    var r := BasicMathFunction([a, b], w);
    assert r.stack == [Arith(w[0], a, b)];
  }

  /** Two literals and an operator leave the one result `a op b`, with C
      truncating division and remainder. */
  lemma RunBinary(a: int, b: int, w: string, text: string, v: int)
    requires Printable([a, b]) && IsOperator(w) && MathDefined(w, [a, b])
    requires text == Unparse([a, b]) + w && v == Arith(w[0], a, b)
    ensures RunDefined(text)
    ensures Run(text) == Some(Outcome(true, [v]))
  {
    CallOperator(a, b, w);
    BuiltinNamesAreWords(w);
    RunLiteralsThenWord([a, b], w);
  }

  /** A built-in called on an empty stack fails and leaves it empty. */
  lemma CallBuiltinEmpty(w: string)
    requires IsOperator(w) || w == "dup"
    ensures CallDefined(CreateContext().table, w, [])
    ensures CallSymbol(CreateContext().table, w, []) == Outcome(false, [])
  {
    BuiltinDispatch(w);
  }

  /** The built-in names are words. */
  lemma BuiltinNamesAreWords(w: string)
    requires IsOperator(w) || w == "dup"
    ensures IsWord(w)
  {
    if w == "dup" {
      assert w[0] == 'd' && w[1] == 'u' && w[2] == 'p';
    }
  }

  /** A built-in run on an empty stack fails and leaves the stack empty. */
  lemma RunBuiltinAlone(w: string)
    requires IsOperator(w) || w == "dup"
    ensures RunDefined(w)
    ensures Run(w) == Some(Outcome(false, []))
  {
    CallBuiltinEmpty(w);
    BuiltinNamesAreWords(w);
    NothingAppend(w);
    RunLiteralsThenWord([], w);
  }

  /** A word the context does not know fails the run after the literals
      before it were pushed; the stack holds them. */
  lemma RunUnknownWord(xs: seq<int>, w: string)
    requires Printable(xs) && IsWord(w)
    requires !IsOperator(w) && w != "dup"
    ensures RunDefined(Unparse(xs) + w)
    ensures Run(Unparse(xs) + w) == Some(Outcome(false, xs))
  {
    BuiltinDispatch(w);
    RunLiteralsThenWord(xs, w);
  }

  /** `3 4 +` leaves 7. */
  lemma ExampleAdd()
    ensures RunDefined("3 4 +") && Run("3 4 +") == Some(Outcome(true, [7]))
  {
    assert "3 4 +" == Unparse([3, 4]) + "+" && Printable([3, 4]);
    RunBinary(3, 4, "+", "3 4 +", 7);
  }

  /** `10 3 -` leaves 7. */
  lemma ExampleSubtract()
    ensures RunDefined("10 3 -") && Run("10 3 -") == Some(Outcome(true, [7]))
  {
    assert "10 3 -" == Unparse([10, 3]) + "-" && Printable([10, 3]);
    RunBinary(10, 3, "-", "10 3 -", 7);
  }

  /** `6 7 *` leaves 42. */
  lemma ExampleMultiply()
    ensures RunDefined("6 7 *") && Run("6 7 *") == Some(Outcome(true, [42]))
  {
    assert "6 7 *" == Unparse([6, 7]) + "*" && Printable([6, 7]);
    RunBinary(6, 7, "*", "6 7 *", 42);
  }

  /** `7 2 /` leaves 3: integer division. */
  lemma ExampleDivide()
    ensures RunDefined("7 2 /") && Run("7 2 /") == Some(Outcome(true, [3]))
  {
    assert "7 2 /" == Unparse([7, 2]) + "/" && Printable([7, 2]);
    RunBinary(7, 2, "/", "7 2 /", 3);
  }

  /** `7 2 %` leaves 1. */
  lemma ExampleRemainder()
    ensures RunDefined("7 2 %") && Run("7 2 %") == Some(Outcome(true, [1]))
  {
    assert "7 2 %" == Unparse([7, 2]) + "%" && Printable([7, 2]);
    RunBinary(7, 2, "%", "7 2 %", 1);
  }

  /** `-7 2 /` leaves -3: division truncates toward zero. */
  lemma ExampleNegativeDivide()
    ensures RunDefined("-7 2 /") && Run("-7 2 /") == Some(Outcome(true, [-3]))
  {
    assert "-7 2 /" == Unparse([-7, 2]) + "/" && Printable([-7, 2]);
    RunBinary(-7, 2, "/", "-7 2 /", -3);
  }

  /** `-7 2 %` leaves -1: the remainder takes the sign of the dividend. */
  lemma ExampleNegativeRemainder()
    ensures RunDefined("-7 2 %") && Run("-7 2 %") == Some(Outcome(true, [-1]))
  {
    assert "-7 2 %" == Unparse([-7, 2]) + "%" && Printable([-7, 2]);
    RunBinary(-7, 2, "%", "-7 2 %", -1);
  }

  /** `dup` or `+` alone fails on the empty stack, which stays empty. */
  lemma ExampleUnderflow()
    ensures RunDefined("dup") && Run("dup") == Some(Outcome(false, []))
    ensures RunDefined("+") && Run("+") == Some(Outcome(false, []))
  {
    RunBuiltinAlone("dup");
    RunBuiltinAlone("+");
  }

  /** `3 foo` fails at the unknown `foo` with 3 on the stack. */
  lemma ExampleUnknownWord()
    ensures RunDefined("3 foo") && Run("3 foo") == Some(Outcome(false, [3]))
  {
    assert "3 foo" == Unparse([3]) + "foo" && Printable([3]) && IsWord("foo");
    assert !IsOperator("foo") && "foo" != "dup";
    RunUnknownWord([3], "foo");
  }

  /** The pieces `5 dup +` is made of. */
  lemma DupAddText()
    ensures "5 dup +" == FormatInt(5) + " " + "dup +" && |FormatInt(5)| < MaxNumLen
    ensures "dup +" == "dup" + " +" && " +" == " " + "+" && "+" == "+" + ""
    ensures IsWord("dup") && IsWord("+")
  {
  }

  /** Three values put in front of nothing, one at a time. */
  lemma ThreeValues(a: Value, b: Value, c: Value)
    ensures [a] + ([b] + ([c] + [])) == [a, b, c]
  {
  }

  /** `5 dup +` compiles to a literal and two symbols. */
  lemma CompileDupAdd()
    ensures Compile("5 dup +") == Some([Int(5), Sym("dup"), Sym("+")])
  {
    DupAddText();
    CompileLiteralThen(5, "dup +");
    CompileWordThen("dup", " +");
    CompileSkipsSpace(" ", "+");
    CompileWordThen("+", "");
    CompileEmpty();
    ThreeValues(Int(5), Sym("dup"), Sym("+"));
  }

  /** `dup` on the stack holding 5 leaves 5 twice. */
  lemma CallDupOnFive()
    ensures CallDefined(CreateContext().table, "dup", [5])
    ensures CallSymbol(CreateContext().table, "dup", [5]) == Outcome(true, [5, 5])
  {
    BuiltinDispatch("dup");
    CallBuiltin("dup", [5]);
    DuplicateFive();
  }

  /** `duplicate` on the stack holding 5. */
  lemma DuplicateFive()
    ensures Duplicate([5]) == Outcome(true, [5, 5])
  {
    assert [5] + [5] == [5, 5];
  }

  /** The program `5 dup +` after each of its steps. */
  lemma DupAddSlices()
    ensures [Int(5), Sym("dup"), Sym("+")][1..] == [Sym("dup"), Sym("+")]
    ensures [Sym("dup"), Sym("+")][1..] == [Sym("+")] && [Sym("+")][1..] == []
    ensures IsOperator("+") && MathDefined("+", [5, 5]) && Arith('+', 5, 5) == 10
  {
  }

  /** Running `5`, `dup`, `+` leaves 10. */
  lemma ExecDupAdd()
    ensures ExecDefined(CreateContext().table, [Int(5), Sym("dup"), Sym("+")], [])
    ensures Exec(CreateContext().table, [Int(5), Sym("dup"), Sym("+")], []) == Outcome(true, [10])
  {
    var t := CreateContext().table;
    DupAddSlices();
    AddFives(t);
    DupThenAdd(t);
    NothingAppend([5]);
  }

  /** The last step of `5 dup +`: `+` on two fives. */
  lemma AddFives(t: Table)
    requires t == CreateContext().table
    ensures ExecDefined(t, [Sym("+")], [5, 5]) && Exec(t, [Sym("+")], [5, 5]) == Outcome(true, [10])
  {
    DupAddSlices();
    CallOperator(5, 5, "+");
    ExecOneSymbol(t, "+", [5, 5]);
  }

  /** The last two steps of `5 dup +`: `dup`, then `+`. */
  lemma DupThenAdd(t: Table)
    requires t == CreateContext().table
    ensures ExecDefined(t, [Sym("dup"), Sym("+")], [5])
    ensures Exec(t, [Sym("dup"), Sym("+")], [5]) == Outcome(true, [10])
  {
    DupAddSlices();
    CallDupOnFive();
    AddFives(t);
  }

  /** `5 dup +` leaves 10. */
  lemma ExampleDupAdd()
    ensures RunDefined("5 dup +") && Run("5 dup +") == Some(Outcome(true, [10]))
  {
    CompileDupAdd();
    ExecDupAdd();
  }

  /** `12` followed by 130 more digits: a number token far past the limit. */
  function LongNumberText(): string
  {
    "12" + seq(130, _ => '7')
  }

  /** The text opens with a run of `MaxNumLen` digits. */
  lemma LongNumberDigits()
    ensures DigitsAt(LongNumberText(), 0, MaxNumLen)
  {
    var s := LongNumberText();
    forall k | 0 <= k < MaxNumLen
      ensures IsDigit(s[0..MaxNumLen][k])
    {
      if k >= 2 {
        assert s[k] == '7';
      }
    }
  }

  /** The overlong number makes compilation fail, so nothing runs. */
  lemma ExampleLongNumber()
    ensures RunDefined(LongNumberText()) && Run(LongNumberText()) == None
  {
    LongNumberDigits();
    CompileRejectsLongDigitRun(LongNumberText(), 0);
  }

  /** The pieces of `2+`: a digit directly followed by an operator. */
  lemma AdjacentText()
    ensures "2+" == "2" + "+" && "2+"[0..] == "2+" && "2+"[1..] == "+" && "+" == "+" + ""
    ensures AllDigits("2") && !IsDigit(Head("+")) && IsWord("+")
  {
  }

  /** The digit in front of `+` is read as a number token that stops at the `+`. */
  lemma AdjacentNumber()
    ensures Head("2+") == '2' && ParseSpaces("2+") == "2+"
    ensures ParseToken("2+") == Some((Int(2), "+"))
  {
    AdjacentText();
    DigitRunExact("2", "+");
    assert DecimalValue("2") == 2 by {
      assert "2"[..0] == "";
    }
  }

  /** The values of `2+`, assembled. */
  lemma AdjacentValues()
    ensures [Int(2)] + ([Sym("+")] + []) == [Int(2), Sym("+")]
  {
  }

  /** Tokens need no blank between them: `2+` is the literal 2, then `+`. */
  lemma ExampleAdjacentTokens()
    ensures Compile("2+") == Some([Int(2), Sym("+")])
  {
    AdjacentText();
    AdjacentNumber();
    CompileUnfold("2+", 0, 1, Int(2));
    CompileWordThen("+", "");
    CompileEmpty();
    AdjacentValues();
  }

  /** A text with a bad character before any terminator never runs: compiling
      it fails, so no program is executed. */
  lemma RunRejectsBadChar(text: string, k: nat)
    requires BadCharAt(text, k)
    ensures RunDefined(text) && Run(text) == None
  {
    CompileRejectsBadChar(text, k);
  }

  /** What `main` does with the compiler's result as the code is written: it
      hands it to `printObject` and then to `exec` whether or not compilation
      failed. `NullExec` stands for that path taken with the NULL program,
      where both callees read through the pointer. */
  datatype MainResult = NullExec | Executed(outcome: Outcome)

  function MainAsWritten(text: string): (r: MainResult)
    requires RunDefined(text)
    ensures r.NullExec? <==> Compile(text).None?
    ensures r.Executed? ==> Run(text) == Some(r.outcome)
  {
    match Compile(text)
    case None => NullExec
    case Some(p) => Executed(Exec(CreateContext().table, p, []))
  }

  /** `3 $` is rejected by the compiler, and `main` as written goes on to
      execute the NULL program. */
  lemma MainExecutesNullProgram()
    ensures RunDefined("3 $")
    ensures MainAsWritten("3 $") == NullExec
    ensures Run("3 $") == None
  {
    var s := "3 $";
    assert BadCharAt(s, 2);
    RunRejectsBadChar(s, 2);
  }
}
