# A model of the forth interpreter in main.c

The interpreter reads a program text, compiles it into a list of integer
and symbol objects, creates an execution context, and executes the list.
The execution context holds an operand stack and a function table. Integers
are pushed onto the stack. Symbols are looked up in the table and call a
built-in. The built-ins are the arithmetic operators `+ - * / %` and `dup`.

This project models that pipeline over immutable values:

- `clib.dfy` (`CLib`): the C library pieces the interpreter relies on.
  These are the "C" locale character classes, `atoi`, `%d` formatting, and
  C's `/` and `%`, which truncate toward zero (section 6.5.5 of ISO/IEC
  9899:1999).
- `objects.dfy` (`Objects`): program values, string and symbol objects,
  `memcmp`, `compareStringObjects` and `listPush`.
- `stack.dfy` (`Stack`): the operand stack as a sequence of integers, with
  the top at the end.
- `function_table.dfy` (`FunctionTable`): `getFunctionByName`,
  `initFunction` and `registerFunction`.
- `builtins.dfy` (`Builtins`): `basicMathFunction` and `duplicate`.
- `interpreter.dfy` (`Interpreter`): `createContext`, `callSymbol` and
  `exec`.
- `parser.dfy` (`Parser`): `parseSpaces`, `parseNumber`, `issymbolchar`,
  `parseSymbol` and `compile`.
- `programs.dfy` (`Programs`): whole programs, run as `main` runs them:
  compile, create the context, execute. It also holds worked examples.

Modelling choices:

- The parser's cursor into a NUL-terminated buffer is modelled as the
  suffix of the text still to read. `Head` yields NUL past the end, so a
  text that holds a NUL ends there, as the C string would.
- Integers are unbounded.
- Division or remainder by zero is undefined in C. It appears as a
  precondition chain: `MathDefined`, `CallDefined`, `ExecDefined`,
  `RunDefined`. There is no invented error result.
- The stack holds integers only, because the parser produces no other
  value that `exec` pushes.

## Model

| member | source | states |
|---|---|---|
| CLib.AtoiFormatInt | main.c:249-256 | `atoi` applied to the `%d` text of any integer returns that integer. Printing and then parsing a number round-trips. |
| CLib.Atoi | main.c:249-256 | `atoi` of the empty buffer is 0. Otherwise the magnitude is the value of the digits after the optional `-`, and the result is negative only with a leading `-`. Its inverse is `%d` formatting (`AtoiFormatInt`). |
| CLib.Strchr | main.c:266 | `strchr` finds the first occurrence of a character, or the terminator when looking for NUL. It returns NULL exactly when the character is neither NUL nor in the string. |
| CLib.CDiv | main.c:491-493 | The magnitude of C `/` is the magnitude of `a` divided by that of `b`, rounded down. Its sign is positive only when the operands agree in sign, and negative only when they differ. The quotient truncates toward zero. |
| CLib.CMod | main.c:494-496 | C `%` satisfies `(a / b) * b + a % b == a` and the remainder is smaller in magnitude than `b`. The remainder takes the sign of the dividend. |
| Objects.Memcmp | main.c:206-207 | `memcmp` over `n` bytes is zero exactly when the first `n` bytes agree. Otherwise it is -1 or 1. |
| Objects.CompareStringObjects | main.c:198-212 | The result is 0 exactly when both objects hold the same bytes, and 1 otherwise. The string/symbol tag plays no part. |
| Objects.ListPush | main.c:216-222 | Appending grows the list by one. The old elements stay in place and the new element is last. |
| Objects.IntLiterals | main.c:298-326 | A program of literals has one `Int` per integer, in the same order. |
| Stack.StackPush | main.c:459-461 | Pushing grows the stack by one, keeps everything below, and puts the value on top. |
| Stack.StackLengthPushPop | main.c:416-461 | `stackLength` tracks push and pop. A push adds one. Pop returns NULL exactly when the length is zero. A successful pop removes one. |
| Stack.StackPop | main.c:423-457 | Popping an empty stack yields NULL (`None`). Otherwise the remaining stack plus the popped top is the old stack. |
| Stack.PopPush | main.c:423-461 | Popping right after pushing `x` gives back the old stack and `x`. |
| Stack.PushPop | main.c:423-461 | Pushing back the popped top of a non-empty stack restores it. |
| FunctionTable.FindFrom | main.c:526-535 | The lookup loop from index `from` finds the first entry at or after `from` whose name has the symbol's bytes. It returns `None` when no such entry exists. |
| FunctionTable.GetFunctionByName | main.c:525-536 | The lookup returns the first entry named by the object's bytes, whatever the object's tag. It returns NULL exactly when no entry has that name. |
| FunctionTable.InitFunction | main.c:538-552 | The table grows by one entry. The new entry is last, carries the given name and has no callback. The earlier entries are unchanged. |
| FunctionTable.RegisterFunction | main.c:557-579 | A name already present has its callback replaced, in place, in the entry the lookup finds first. The table length, all names, and every other entry stay the same, including any later entry with the same name. A new name appends one entry. A table with distinct names keeps distinct names. |
| FunctionTable.LookupAfterRegister | main.c:557-579 | After registering a name, looking it up with either object tag finds the callback just registered. |
| FunctionTable.LookupOtherAfterRegister | main.c:525-579 | Registering a name does not change the lookup of any other name: both the found/not-found outcome and the entry found stay the same. |
| FunctionTable.RegisterNameSet | main.c:557-579 | One registration adds its name to the table's set of names and removes none. |
| FunctionTable.RegisterAllKeepsNamesDistinct | main.c:557-579 | After any sequence of registrations, a table that started with distinct names still has distinct names. It carries exactly its old names plus the registered ones. |
| FunctionTable.RegisterAllSize | main.c:557-579 | From an empty table, any sequence of registrations leaves one entry per distinct registered name. |
| Builtins.Arith | main.c:479-497 | `+ - *` are the integer operations. `/` and `%` are C's: the quotient truncates toward zero, and the remainder satisfies the C division identity and follows the dividend's sign. Any other first character leaves the result at 0. |
| Builtins.BasicMathFunction | main.c:465-502 | Success holds exactly when two operands are present. On failure the stack is unchanged. On success the top is `b`, the next is `a`, and they are replaced by `a op b`. The stack then shrinks by one, and everything below the operands is unchanged. |
| Builtins.Duplicate | main.c:504-516 | Success holds exactly when the stack is non-empty. On failure the stack is unchanged. On success the top value is pushed again and the stack below is unchanged. |
| Interpreter.BuiltinRegistrationsTable | main.c:592-598 | The seven registrations of `createContext` (with `%` registered twice) produce exactly the six-entry table `+ - * / % dup`. |
| Interpreter.BuiltinTableShape | main.c:592-598 | That table has distinct names `+ - * / % dup`. The first five entries call the arithmetic built-in and the sixth calls `dup`. |
| Interpreter.CreateContext | main.c:585-601 | A fresh context has an empty stack and a table with exactly six distinctly named entries: `+ - * / %` with the arithmetic built-in, then `dup`. |
| Interpreter.BuiltinDispatch | main.c:592-598 | In the fresh context, the five operators resolve to the arithmetic built-in and `dup` resolves to `duplicate`. Every other name resolves to nothing. |
| Interpreter.CallSymbol | main.c:606-625 | An unknown symbol fails. A known one succeeds exactly when the stack holds its callback's operands. A failure leaves the stack unchanged. A success changes the depth by the callback's stack effect and leaves everything below the operands unchanged. |
| Interpreter.ExecLiterals | main.c:629-649 | A program of integer literals succeeds and pushes them in source order. |
| Interpreter.ExecAppend | main.c:629-649 | Running `p + q` is running `p`, then `q` on the stack `p` left behind. If `p` fails, `q` is never reached. |
| Interpreter.ExecDefinedAppend | main.c:629-649 | Running `p + q` avoids division by zero when `p` does and `q` does from `p`'s result. |
| Interpreter.ExecHaltsAtFirstFailure | main.c:629-649 | A failed run stopped at a symbol `p[k]`. Everything before `p[k]` succeeded. The call at `p[k]` failed, and the final stack is the stack as it stood before that call. |
| Interpreter.Exec | main.c:629-649 | A successful run changes the stack depth by the program's net effect: +1 per literal plus each built-in's stack effect. What the run computes is stated by `ExecLiterals`, `ExecAppend` and `ExecHaltsAtFirstFailure`. |
| Parser.SymbolCharStrchr | main.c:259-271 | `issymbolchar` holds exactly for a letter or a character `strchr` finds among `+-/*%.`, which includes NUL. |
| Parser.SymbolCharClass | main.c:259-271 | A symbol character is never whitespace or a digit, so the three token classes do not overlap. |
| Parser.ParseSpaces | main.c:224-228 | The cursor moves past whitespace only, and stops at a character that is not whitespace. |
| Parser.DigitRun | main.c:240-247 | The loop's digit run is maximal: only digits, then a non-digit or the end. |
| Parser.SymbolRun | main.c:276-278 | The loop's symbol run is maximal: only symbol characters, then a non-symbol character or the end. |
| Parser.OverlongIffLong | main.c:236-247 | A number token reaches the `MAX_NUM_LEN` limit exactly when its sign and digits together reach 128 characters. |
| Parser.ParseNumber | main.c:230-257 | At a number start, `parseNumber` fails exactly when the token reaches 128 characters counting the `-`. Otherwise it returns the token's decimal value with the optional sign. It stops at the first non-digit and consumes exactly the token. |
| Parser.ParseSymbol | main.c:273-283 | `parseSymbol` returns the maximal run of symbol characters as a symbol, and the text continues right after it. |
| Parser.ParseToken | main.c:310-317 | A token is an integer exactly when it starts with a digit, or with `-` directly followed by a digit. Reading fails exactly on an overlong number or a character outside the allowed classes. A successful read consumes at least one character, all of them allowed, with no digit inside a symbol. |
| Parser.Compile | main.c:289-336 | On success there are at most as many values as characters. What it yields or rejects is stated by `CompileUnparse`, `CompileWordThen`, `CompileRejectsBadChar`, `CompileRejectsLongDigitRun`, `CompileRejectsOverlongToken`, `CompileRejectsOverlongAfterLiterals`, `CompileAcceptsShortTokens` and `CompileSymbolsAreWords`. |
| Parser.CompileSkipsSpace | main.c:224-228 | Any leading run of whitespace (space, tab, newline, vertical tab, form feed, carriage return) does not change what compiles. |
| Parser.ParseFormatted | main.c:231-257 | The `%d` text of an integer, shorter than the limit and followed by a blank, reads back as that integer. |
| Parser.CompileUnparseThen | main.c:289-336 | Printed integers in front of any text compile to those integers in order, followed by whatever the text compiles to. |
| Parser.CompileUnparse | main.c:289-336 | Printing a list of integers and compiling the text gives back the list. |
| Parser.CompileWordThen | main.c:289-336 | A word followed by a blank or the end compiles to its symbol, followed by whatever the rest compiles to. |
| Parser.CompileUnfold | main.c:300-326 | After a successful token, `compile` continues on the rest of the text and puts the token in front. |
| Parser.CompileRejectsBadChar | main.c:313-323 | Any character that is neither whitespace, a digit nor a symbol character, standing before the terminator, makes `compile` return NULL. |
| Parser.CompileRejectsLongDigitRun | main.c:240-247 | Any run of 128 digits before the terminator makes `compile` return NULL, wherever it stands. |
| Parser.CompileRejectsOverlongToken | main.c:236-246 | A number token of 128 characters, counting its leading `-`, at the start of the text makes `parseNumber` fail. `compile` then returns NULL (main.c:319-323). |
| Parser.CompileRejectsOverlongAfterLiterals | main.c:236-246 | The same token after any printed literals still makes `compile` return NULL (main.c:319-323). |
| Parser.CompileAcceptsShortTokens | main.c:289-336 | Text made only of whitespace, digits and symbol characters, with no run of 127 digits, always compiles. |
| Parser.CompileSymbolsAreWords | main.c:273-283 | Every symbol a successful compilation yields is a non-empty run of symbol characters. |
| Programs.Run | main.c:672-680 | Running fails to produce an outcome exactly when compilation fails. |
| Programs.RunLiterals | main.c:629-649 | A text of printed integers runs successfully and leaves exactly those integers on the stack, in order. |
| Programs.RunLiteralsThenWord | main.c:606-649 | Printed integers followed by one word run as the word called on the stack of those integers. |
| Programs.CallBuiltin | main.c:592-625 | In the fresh context, an operator symbol runs `basicMathFunction` and `dup` runs `duplicate`. Any other name fails with the stack unchanged. |
| Programs.CallOperator | main.c:465-502 | An operator on two operands `a b` leaves only `a op b`. |
| Programs.RunBinary | main.c:465-502 | The text `a b op` leaves the single value `a op b`, with C division. |
| Programs.CallBuiltinEmpty | main.c:466-469 | Every built-in fails on an empty stack and leaves the stack empty. |
| Programs.RunBuiltinAlone | main.c:466-508 | A program made of one built-in name fails with the stack empty. This covers the operators' underflow check (main.c:466-469) and `dup`'s (main.c:505-508). |
| Programs.RunUnknownWord | main.c:611-614 | A word that names no built-in fails the run after the literals before it were pushed. |
| Programs.ExampleAdd | main.c:482-484 | `3 4 +` leaves 7. |
| Programs.ExampleSubtract | main.c:485-487 | `10 3 -` leaves 7. |
| Programs.ExampleMultiply | main.c:488-490 | `6 7 *` leaves 42. |
| Programs.ExampleDivide | main.c:491-493 | `7 2 /` leaves 3. |
| Programs.ExampleRemainder | main.c:494-496 | `7 2 %` leaves 1. |
| Programs.ExampleNegativeDivide | main.c:491-493 | `-7 2 /` leaves -3, so division truncates toward zero. |
| Programs.ExampleNegativeRemainder | main.c:494-496 | `-7 2 %` leaves -1, so the remainder follows the dividend. |
| Programs.ExampleUnderflow | main.c:466-469 | `dup` alone and `+` alone each fail with an empty stack. |
| Programs.ExampleUnknownWord | main.c:611-614 | `3 foo` fails at `foo` with 3 on the stack. |
| Programs.ExampleDupAdd | main.c:504-516 | `5 dup +` leaves 10. |
| Programs.ExampleLongNumber | main.c:244-246 | A 132-digit number makes compilation fail, so nothing runs. |
| Programs.ExampleAdjacentTokens | main.c:310-314 | Tokens need no blank between them: `2+` compiles to the literal 2 and then `+`. |
| Programs.RunRejectsBadChar | main.c:315-323 | A text with a disallowed character before the terminator never runs. |
| Programs.MainAsWritten | main.c:672-680 | As written, `main` passes a failed compilation's NULL result on to `printObject` and `exec`. Otherwise it executes the program as `Run` does. |
| Programs.MainExecutesNullProgram | main.c:672-680 | `3 $` fails to compile, and `main` as written goes on with the NULL program. |

## Left out

- File reading (`filegetcontents`), command-line handling, the `debug` flag, and all printing (`printObject`, error messages): these are I/O. `Programs.Run` starts from the text already read.
- Reference counts (`retain`, `release`, `freeObject`) and memory management (`xmalloc`, `xrealloc`, `free`): every value is immutable. `duplicate` does not retain the object it pushes a second time, so no balance of counts is claimed.
- The `userfunction` slot and its branch in `callSymbol` (main.c:47, main.c:616-617): nothing ever fills it.
- `cloneobj`, `makebool`, and strings as runtime values: the pipeline never uses them.
- 32-bit `int` arithmetic: integers are unbounded. Overflow in `+ - *`, the `INT_MIN / -1` case, and `atoi` inputs beyond the `int` range are undefined in C and are not modelled.
- Division and remainder by zero are undefined in C. They are a precondition (`Builtins.MathDefined`), not an error result.
- The `a == NULL || b == NULL` branch of `basicMathFunction` (main.c:474-477) cannot be taken after the length check. The missing operand type check does not arise either, because the stack holds integers only.
- Characters outside ASCII, and the undefined behaviour of the `ctype` functions on negative `char` values: the character classes are those of the "C" locale on 7-bit characters.
- Where the model follows the code rather than the documentation:
  - `callSymbol` never checks that its object is a symbol (main.c:607-609). `exec` only sends it symbols (main.c:634-641), so `CallSymbol` takes the symbol's name.
  - Tokens need no blank between them (`2+` is two tokens).
  - The 128-character limit counts the leading `-`.
  - A failing run is reported only by a message: `main` still exits with status 0.
- Programs.RunLiterals: requires every printed integer to be shorter than the 128-character limit, because the compiler rejects longer ones.
- Parser.CompileUnparse: requires every printed integer to be shorter than the 128-character limit, for the same reason.

## Findings

| source | as written | input that shows it | evidently intended | confidence | as-written member | corrected member |
|---|---|---|---|---|---|---|
| main.c:672-680 | `main` does not test the result of `compile`. A rejected program is NULL, and that NULL is passed to `printObject` and then `exec`, which both read through it. | the program text `3 $` | stop after reporting the compile error, without executing anything | not executed | Programs.MainExecutesNullProgram | Programs.RunRejectsBadChar |
