/** The tokenizer of main.c (`compile` and its helpers). The parser's cursor
    is modelled as the remaining suffix of the program text; `Head` reads the
    terminator at the end, so an embedded NUL ends the program exactly as in C. */
module Parser {
  import opened Wrappers
  import opened CLib
  import opened Objects

  /** `MAX_NUM_LEN`: a number token (sign included) may not reach this length. */
  const MaxNumLen: nat := 128

  /** `issymbolchar`: a letter or one of the six operator characters
      (plus, minus, slash, star, percent, dot). The C version looks the
      character up with `strchr`, which also finds the string's own
      terminator, so it answers yes for NUL; every caller tests for NUL first. */
  predicate IsSymbolChar(c: char)
  {
    || IsAlpha(c)
    || c == '+' || c == '-' || c == '/' || c == '*' || c == '%' || c == '.'
    || c == NUL
  }

  /** `issymbolchar` as the code writes it: `isalpha`, then `strchr` over the
      six operator characters, which also answers yes for NUL. */
  lemma SymbolCharStrchr(c: char)
    ensures IsSymbolChar(c) <==> IsAlpha(c) || Strchr("+-/*%.", c).Some?
  {
  }

  /** A symbol character other than NUL is neither whitespace nor a digit. */
  lemma SymbolCharClass(c: char)
    requires c != NUL && IsSymbolChar(c)
    ensures !IsSpace(c) && !IsDigit(c)
  {
  }

  /** The characters a program may contain: whitespace, digits and symbol characters. */
  predicate Allowed(c: char)
  {
    IsSpace(c) || IsDigit(c) || (c != NUL && IsSymbolChar(c))
  }

  /** `parseSpaces`: skip the whitespace under the cursor. */
  function ParseSpaces(s: string): (rest: string)
    ensures |rest| <= |s| && rest == s[|s| - |rest|..]
    ensures forall k :: 0 <= k < |s| - |rest| ==> IsSpace(s[k])
    ensures !IsSpace(Head(rest))
  {
    if |s| > 0 && IsSpace(s[0]) then ParseSpaces(s[1..]) else s
  }

  /** Length of the run of digits at the front of `s`. */
  function DigitRun(s: string): (n: nat)
    ensures n <= |s|
    ensures AllDigits(s[..n])
    ensures !IsDigit(Head(s[n..]))
  {
    if |s| > 0 && IsDigit(s[0]) then
      var n := 1 + DigitRun(s[1..]);
      assert s[..n] == [s[0]] + s[1..][..n - 1];
      n
    else 0
  }

  /** Length of the run of (non-NUL) symbol characters at the front of `s`. */
  function SymbolRun(s: string): (n: nat)
    ensures n <= |s|
    ensures forall k :: 0 <= k < n ==> s[k] != NUL && IsSymbolChar(s[k])
    ensures Head(s[n..]) == NUL || !IsSymbolChar(Head(s[n..]))
  {
    if |s| > 0 && s[0] != NUL && IsSymbolChar(s[0]) then 1 + SymbolRun(s[1..]) else 0
  }

  /** The test `compile` uses to pick `parseNumber`: a digit, or a `-`
      immediately followed by a digit. */
  predicate StartsNumber(s: string)
  {
    IsDigit(Head(s)) || (Head(s) == '-' && Head(s[1..]) != NUL && IsDigit(Head(s[1..])))
  }

  /** `n` digits stand at position `k` of `s`. */
  predicate DigitsAt(s: string, k: int, n: nat)
  {
    0 <= k && k + n <= |s| && AllDigits(s[k..k + n])
  }

  /** A digit run seen in a suffix is a digit run of the whole text. */
  lemma DigitsAtSuffix(s: string, j: nat, k: int, n: nat)
    requires j <= |s|
    ensures DigitsAt(s[j..], k, n) <==> (0 <= k && DigitsAt(s, j + k, n))
  {
    if 0 <= k && j + k + n <= |s| {
      assert s[j..][k..k + n] == s[j + k..j + k + n];
    }
  }

  /** A digit run at or after `i` is seen, shifted, in the suffix from `i`. */
  lemma DigitsAtShift(s: string, i: nat, k: nat, n: nat)
    requires i <= k && DigitsAt(s, k, n)
    ensures DigitsAt(s[i..], k - i, n)
  {
    DigitsAtSuffix(s, i, k - i, n);
  }

  /** `MaxNumLen - 1` digits stand at position `k`: as many as an unsigned
      number token may have, and one more than a signed one may. */
  predicate LimitRunAt(s: string, k: int)
  {
    DigitsAt(s, k, MaxNumLen - 1)
  }

  /** No `MaxNumLen - 1` digits stand anywhere in `s`. */
  ghost predicate NoLimitRun(s: string)
  {
    forall k :: !LimitRunAt(s, k)
  }

  /** Every character of `s` may appear in a program. */
  predicate AllAllowed(s: string)
  {
    forall k :: 0 <= k < |s| ==> Allowed(s[k])
  }

  /** A number token at the front of `s` that reaches `MaxNumLen` characters. */
  predicate Overlong(s: string)
  {
    |s| >= MaxNumLen && IsNumeral(s[..MaxNumLen])
  }

  /** Length of the optional leading `-` of a number token. */
  function SignLen(s: string): nat
  {
    if Head(s) == '-' then 1 else 0
  }

  /** A run of `m` digits at the front of `t` is covered by the maximal run. */
  lemma {:induction false} DigitRunCovers(t: string, m: nat)
    requires m <= |t| && AllDigits(t[..m])
    ensures DigitRun(t) >= m
  {
    if m > 0 {
      assert IsDigit(t[..m][0]);
      assert t[1..][..m - 1] == t[..m][1..];
      DigitRunCovers(t[1..], m - 1);
    }
  }

  /** A number token is overlong exactly when its sign and digits reach `MaxNumLen`. */
  lemma OverlongIffLong(s: string)
    requires StartsNumber(s)
    ensures DigitRun(s[SignLen(s)..]) > 0
    ensures Overlong(s) <==> SignLen(s) + DigitRun(s[SignLen(s)..]) >= MaxNumLen
  {
    var sign := SignLen(s);
    var t := s[sign..];
    var n := DigitRun(t);
    assert IsDigit(Head(t));
    if sign + n >= MaxNumLen {
      var u := s[..MaxNumLen];
      assert u[sign..] == t[..n][..MaxNumLen - sign];
      assert IsNumeral(u);
    }
    if Overlong(s) {
      var u := s[..MaxNumLen];
      assert u[sign..] == t[..MaxNumLen - sign];
      DigitRunCovers(t, MaxNumLen - sign);
    }
  }

  /** The token `parseNumber` cuts out when the sign and `digits > 0` digits
      stand at the front of `s`, and what it leaves behind. */
  lemma NumberPrefix(s: string, digits: nat)
    requires 0 < digits && SignLen(s) + digits <= |s|
    requires AllDigits(s[SignLen(s)..][..digits]) && !IsDigit(Head(s[SignLen(s)..][digits..]))
    ensures var p := SignLen(s) + digits;
            && |s[p..]| == |s| - p && s[..|s| - |s[p..]|] == s[..p]
            && IsNumeral(s[..p]) && !IsDigit(Head(s[p..]))
            && forall k :: 0 <= k < p ==> IsDigit(s[k]) || (k == 0 && s[k] == '-')
  {
    var sign := SignLen(s);
    var p := sign + digits;
    assert s[..p][sign..] == s[sign..][..digits];
    assert s[sign..][digits..] == s[p..];
    forall k | 0 <= k < p ensures IsDigit(s[k]) || (k == 0 && s[k] == '-') {
      if k >= sign { assert s[k] == s[sign..][..digits][k - sign]; }
    }
  }

  /** `parseNumber`: an optional `-`, then the maximal run of digits. `None`
      when the token reaches `MaxNumLen` characters. Called without a digit
      (which `compile` never does) it yields 0, as `atoi` of an empty buffer. */
  function ParseNumber(s: string): (r: Option<(Value, string)>)
    ensures StartsNumber(s) ==> (r.None? <==> Overlong(s))
    ensures r.Some? ==> |r.value.1| <= |s| && r.value.1 == s[|s| - |r.value.1|..]
    ensures r.Some? && StartsNumber(s) ==>
              var tok := s[..|s| - |r.value.1|];
              && IsNumeral(tok) && |tok| < MaxNumLen
              && r.value.0 == Int(Atoi(tok))
              && !IsDigit(Head(r.value.1))
    ensures r.Some? && StartsNumber(s) ==>
              forall k :: 0 <= k < |s| - |r.value.1| ==> IsDigit(s[k]) || (k == 0 && s[k] == '-')
    ensures !StartsNumber(s) ==> r.Some? && r.value.0 == Int(0)
  {
    var sign := SignLen(s);
    var digits := DigitRun(s[sign..]);
    var p := sign + digits;
    if digits == 0 then
      assert !StartsNumber(s) by {
        if StartsNumber(s) { OverlongIffLong(s); }
      }
      Some((Int(0), s[p..]))
    else
      assert StartsNumber(s) by {
        assert IsDigit(Head(s[sign..]));
      }
      OverlongIffLong(s);
      if p >= MaxNumLen then None
      else
        NumberPrefix(s, digits);
        Some((Int(Atoi(s[..p])), s[p..]))
  }

  /** `parseSymbol`: the maximal run of symbol characters, as a symbol object. */
  function ParseSymbol(s: string): (r: (Value, string))
    ensures r.0.Sym? && s == r.0.name + r.1
    ensures forall k :: 0 <= k < |r.0.name| ==> r.0.name[k] != NUL && IsSymbolChar(r.0.name[k])
    ensures Head(r.1) == NUL || !IsSymbolChar(Head(r.1))
  {
    var n := SymbolRun(s);
    assert s == s[..n] + s[n..];
    (Sym(s[..n]), s[n..])
  }

  /** The characters a number token consumes are allowed ones. */
  lemma NumberTokenChars(s: string)
    requires StartsNumber(s) && ParseNumber(s).Some?
    ensures var rest := ParseNumber(s).value.1;
            && |rest| < |s|
            && forall k :: 0 <= k < |s| - |rest| ==> s[k] != NUL && Allowed(s[k])
  {
    var rest := ParseNumber(s).value.1;
    assert |s| - |rest| > 0 by {
      assert IsNumeral(s[..|s| - |rest|]);
    }
  }

  /** The characters a symbol token consumes are allowed ones, and none is a digit. */
  lemma SymbolTokenChars(s: string)
    requires Head(s) != NUL && IsSymbolChar(Head(s))
    ensures var (v, rest) := ParseSymbol(s);
            && |rest| < |s| && rest == s[|s| - |rest|..]
            && forall k :: 0 <= k < |s| - |rest| ==> s[k] != NUL && Allowed(s[k]) && !IsDigit(s[k])
  {
    var (v, rest) := ParseSymbol(s);
    assert s[0] == v.name[0];
    forall k | 0 <= k < |s| - |rest| ensures s[k] != NUL && Allowed(s[k]) && !IsDigit(s[k]) {
      assert s[k] == v.name[k];
      SymbolCharClass(s[k]);
    }
  }

  /** One pass of the `compile` loop once the cursor is past whitespace and not
      at the terminator: a number, a symbol, or an unexpected character. */
  function ParseToken(s: string): (r: Option<(Value, string)>)
    requires Head(s) != NUL && !IsSpace(Head(s))
    ensures r.Some? ==> |r.value.1| < |s| && r.value.1 == s[|s| - |r.value.1|..]
    ensures r.Some? ==> (r.value.0.Int? <==> StartsNumber(s))
    ensures r.None? <==> (StartsNumber(s) && Overlong(s)) || !Allowed(Head(s))
    ensures r.Some? ==> forall k :: 0 <= k < |s| - |r.value.1| ==> s[k] != NUL && Allowed(s[k])
    ensures r.Some? && r.value.0.Sym? ==> forall k :: 0 <= k < |s| - |r.value.1| ==> !IsDigit(s[k])
    ensures r.Some? && r.value.0.Int? ==> !IsDigit(Head(r.value.1)) && |s| - |r.value.1| < MaxNumLen
  {
    if StartsNumber(s) then
      if ParseNumber(s).Some? then NumberTokenChars(s); ParseNumber(s) else None
    else if IsSymbolChar(s[0]) then
      SymbolTokenChars(s);
      Some(ParseSymbol(s))
    else None
  }

  /** `compile`: the program's values in source order, or `None` at the first
      token that cannot be parsed. */
  function Compile(s: string): (r: Option<seq<Value>>)
    ensures r.Some? ==> |r.value| <= |s|
    decreases |s|
  {
    var t := ParseSpaces(s);
    if Head(t) == NUL then Some([])
    else match ParseToken(t)
      case None => None
      case Some((v, rest)) =>
        (match Compile(rest)
         case None => None
         case Some(vs) => Some([v] + vs))
  }

  /** A program written back out as text: each integer as `%d` prints it,
      followed by a space. */
  function Unparse(xs: seq<int>): string
  {
    if |xs| == 0 then "" else FormatInt(xs[0]) + " " + Unparse(xs[1..])
  }

  /** A run of digits followed by a non-digit is exactly the digit run. */
  lemma {:induction false} DigitRunExact(d: string, u: string)
    requires AllDigits(d) && !IsDigit(Head(u))
    ensures DigitRun(d + u) == |d|
    decreases |d|
  {
    if |d| > 0 {
      assert (d + u)[1..] == d[1..] + u;
      DigitRunExact(d[1..], u);
    } else {
      assert d + u == u;
    }
  }

  /** A printed integer followed by a space parses back as that integer. */
  lemma ParseFormatted(x: int, rest: string)
    requires |FormatInt(x)| < MaxNumLen
    ensures Head(FormatInt(x) + " " + rest) != NUL && !IsSpace(Head(FormatInt(x) + " " + rest))
    ensures ParseToken(FormatInt(x) + " " + rest) == Some((Int(x), " " + rest))
  {
    var f := FormatInt(x);
    var s := f + " " + rest;
    var sign := SignLen(s);
    assert SignLen(f) == sign;
    assert s[sign..] == f[sign..] + (" " + rest);
    DigitRunExact(f[sign..], " " + rest);
    assert s[..|f|] == f;
    assert s[|f|..] == " " + rest;
    AtoiFormatInt(x);
    assert StartsNumber(s) by {
      if sign == 1 { assert s[1..][0] == f[1]; }
    }
  }

  /** Skipping whitespace in front of `u` lands where skipping in `u` does. */
  lemma {:induction false} ParseSpacesBlank(w: string, u: string)
    requires forall k :: 0 <= k < |w| ==> IsSpace(w[k])
    ensures ParseSpaces(w + u) == ParseSpaces(u)
    decreases |w|
  {
    if |w| > 0 {
      assert (w + u)[0] == w[0];
      assert (w + u)[1..] == w[1..] + u;
      ParseSpacesBlank(w[1..], u);
    } else {
      assert w + u == u;
    }
  }

  /** Leading whitespace, of any of the six kinds, does not change what compiles. */
  lemma CompileSkipsSpace(w: string, u: string)
    requires forall k :: 0 <= k < |w| ==> IsSpace(w[k])
    ensures Compile(w + u) == Compile(u)
  {
    ParseSpacesBlank(w, u);
  }

  /** A compilation result with values in front; failure stays failure. */
  function Prepend(vs: seq<Value>, r: Option<seq<Value>>): Option<seq<Value>>
  {
    match r
    case None => None
    case Some(ws) => Some(vs + ws)
  }

  /** The first printed integer, then the rest of the text. */
  lemma UnparseCons(xs: seq<int>, u: string)
    requires |xs| > 0
    ensures Unparse(xs) + u == FormatInt(xs[0]) + " " + (Unparse(xs[1..]) + u)
  {
  }

  /** Values put in front in two steps are put in front together. */
  lemma PrependTwice(a: seq<Value>, b: seq<Value>, r: Option<seq<Value>>)
    ensures Prepend(a, Prepend(b, r)) == Prepend(a + b, r)
  {
    if r.Some? {
      assert a + (b + r.value) == (a + b) + r.value;
    }
  }

  /** Putting no values in front changes nothing. */
  lemma PrependNothing(r: Option<seq<Value>>)
    ensures Prepend([], r) == r
  {
    if r.Some? {
      assert [] + r.value == r.value;
    }
  }

  /** Text that is empty compiles to the empty program. */
  lemma CompileEmpty()
    ensures Compile("") == Some([])
  {
    assert Head("") == NUL;
  }

  /** A printed integer followed by a space compiles to that integer in front
      of whatever the rest of the text compiles to. */
  lemma CompileLiteralThen(x: int, u: string)
    requires |FormatInt(x)| < MaxNumLen
    ensures Compile(FormatInt(x) + " " + u) == Prepend([Int(x)], Compile(u))
  {
    var s := FormatInt(x) + " " + u;
    ParseFormatted(x, u);
    assert ParseSpaces(s) == s;
    CompileSkipsSpace(" ", u);
  }

  /** One printed integer more in front of a text: the step of `CompileUnparseThen`. */
  lemma CompileUnparseStep(xs: seq<int>, u: string)
    requires |xs| > 0 && |FormatInt(xs[0])| < MaxNumLen
    requires Compile(Unparse(xs[1..]) + u) == Prepend(IntLiterals(xs[1..]), Compile(u))
    ensures Compile(Unparse(xs) + u) == Prepend(IntLiterals(xs), Compile(u))
  {
    UnparseCons(xs, u);
    CompileLiteralThen(xs[0], Unparse(xs[1..]) + u);
    PrependTwice([Int(xs[0])], IntLiterals(xs[1..]), Compile(u));
  }

  /** Printed integers in front of a text compile to those integers in
      front of whatever the text compiles to. */
  lemma {:induction false} CompileUnparseThen(xs: seq<int>, u: string)
    requires forall i :: 0 <= i < |xs| ==> |FormatInt(xs[i])| < MaxNumLen
    ensures Compile(Unparse(xs) + u) == Prepend(IntLiterals(xs), Compile(u))
    decreases |xs|
  {
    if |xs| > 0 {
      CompileUnparseThen(xs[1..], u);
      CompileUnparseStep(xs, u);
    } else {
      assert Unparse(xs) + u == u;
      PrependNothing(Compile(u));
    }
  }

  /** Printing a program of integers and compiling the text gives the
      program back, as long as no printed integer reaches the length limit. */
  lemma CompileUnparse(xs: seq<int>)
    requires forall i :: 0 <= i < |xs| ==> |FormatInt(xs[i])| < MaxNumLen
    ensures Compile(Unparse(xs)) == Some(IntLiterals(xs))
  {
    CompileUnparseThen(xs, "");
    CompileEmpty();
    AppendNothing(Unparse(xs));
    AppendNothing(IntLiterals(xs));
  }

  /** A word: a non-empty run of symbol characters. */
  predicate IsWord(w: string)
  {
    |w| > 0 && forall k :: 0 <= k < |w| ==> w[k] != NUL && IsSymbolChar(w[k])
  }

  /** The symbol run of a word followed by a non-symbol character is the word. */
  lemma {:induction false} SymbolRunWord(w: string, u: string)
    requires forall k :: 0 <= k < |w| ==> w[k] != NUL && IsSymbolChar(w[k])
    requires Head(u) == NUL || !IsSymbolChar(Head(u))
    ensures SymbolRun(w + u) == |w|
    decreases |w|
  {
    if |w| > 0 {
      assert (w + u)[0] == w[0];
      assert (w + u)[1..] == w[1..] + u;
      SymbolRunWord(w[1..], u);
    } else {
      assert w + u == u;
    }
  }

  /** The symbol characters at the front of a word followed by a non-symbol
      character are the word. */
  lemma WordSymbol(w: string, u: string)
    requires IsWord(w)
    requires Head(u) == NUL || !IsSymbolChar(Head(u))
    ensures ParseSymbol(w + u) == (Sym(w), u)
  {
    SymbolRunWord(w, u);
    assert (w + u)[..|w|] == w && (w + u)[|w|..] == u;
  }

  /** A word followed by a blank or the end of the text does not start a number. */
  lemma WordNotNumber(w: string, u: string)
    requires IsWord(w)
    requires Head(u) == NUL || IsSpace(Head(u))
    ensures Head(w + u) == w[0] && !StartsNumber(w + u)
    ensures ParseSpaces(w + u) == w + u
  {
    var s := w + u;
    assert s[0] == w[0];
    SymbolCharClass(w[0]);
    assert s[1..] == w[1..] + u;
    if |w| > 1 { assert s[1..][0] == w[1]; }
  }

  /** A word followed by a blank or the end of the text is read as one
      symbol token, leaving exactly what follows it. */
  lemma WordToken(w: string, u: string)
    requires IsWord(w)
    requires Head(u) == NUL || IsSpace(Head(u))
    ensures ParseSpaces(w + u) == w + u && Head(w + u) != NUL && !IsSpace(Head(w + u))
    ensures ParseToken(w + u) == Some((Sym(w), u))
  {
    WordNotNumber(w, u);
    assert Head(w + u) != NUL && !IsSpace(Head(w + u));
    WordSymbol(w, u);
  }

  /** A word followed by a blank or the end of the text compiles to its
      symbol in front of whatever the rest compiles to. */
  lemma CompileWordThen(w: string, u: string)
    requires IsWord(w)
    requires Head(u) == NUL || IsSpace(Head(u))
    ensures Compile(w + u) == Prepend([Sym(w)], Compile(u))
  {
    WordToken(w, u);
  }

  /** The `compile` loop continues after the token at `m..m + c`. */
  lemma CompileUnfold(s: string, m: nat, c: nat, v: Value)
    requires m + c <= |s| && ParseSpaces(s) == s[m..] && Head(s[m..]) != NUL
    requires ParseToken(s[m..]) == Some((v, s[m + c..]))
    ensures Compile(s) == match Compile(s[m + c..]) case None => None case Some(vs) => Some([v] + vs)
  {
  }

  /** One successful pass of the `compile` loop, by position: `m` blanks are
      skipped, then a token of `c` characters becomes `v`. */
  lemma CompileStepPositions(s: string) returns (m: nat, c: nat, v: Value)
    requires Head(ParseSpaces(s)) != NUL && ParseToken(ParseSpaces(s)).Some?
    ensures 0 < c && m + c <= |s|
    ensures ParseSpaces(s) == s[m..] && Head(s[m..]) != NUL && !IsSpace(Head(s[m..]))
    ensures ParseToken(s[m..]) == Some((v, s[m + c..]))
  {
    var t := ParseSpaces(s);
    m := |s| - |t|;
    var r := ParseToken(t).value;
    v := r.0;
    c := |t| - |r.1|;
    assert t == s[m..];
    assert r.1 == s[m + c..];
  }

  /** The characters of a token, seen at their positions in the whole text,
      and where a number token ends. */
  lemma TokenChars(s: string, m: nat, c: nat, v: Value)
    requires m + c <= |s| && Head(s[m..]) != NUL && !IsSpace(Head(s[m..]))
    requires ParseToken(s[m..]) == Some((v, s[m + c..]))
    ensures forall j :: m <= j < m + c ==> s[j] != NUL && Allowed(s[j])
    ensures v.Sym? ==> forall j :: m <= j < m + c ==> !IsDigit(s[j])
    ensures v.Int? ==> !IsDigit(Head(s[m + c..])) && c < MaxNumLen
  {
    var t := s[m..];
    assert |t| - |s[m + c..]| == c;
    assert forall j :: m <= j < m + c ==> s[j] == t[j - m];
  }

  /** No terminator stands before position `k`. */
  predicate NulFreeBefore(s: string, k: nat)
  {
    k <= |s| && forall j :: 0 <= j < k ==> s[j] != NUL
  }

  /** Compilation reaches a character that is neither blank nor NUL and
      has no NUL before it: whitespace skipping stops at or before it. */
  lemma NonBlankAhead(s: string, k: nat)
    requires k < |s| && s[k] != NUL && !IsSpace(s[k])
    requires NulFreeBefore(s, k)
    ensures |s| - |ParseSpaces(s)| <= k
    ensures Head(ParseSpaces(s)) != NUL
  {
    var t := ParseSpaces(s);
    var m := |s| - |t|;
    assert t[0] == s[m];
  }

  /** A character that is neither whitespace, a digit nor a symbol character
      stands at `k`, with no terminator before it. */
  predicate BadCharAt(s: string, k: nat)
  {
    k < |s| && s[k] != NUL && !Allowed(s[k]) && NulFreeBefore(s, k)
  }

  /** A bad character met before any terminator is still met, at its shifted
      position, in every suffix that contains it. */
  lemma BadCharInSuffix(s: string, i: nat, k: nat)
    requires i <= k && BadCharAt(s, k)
    ensures BadCharAt(s[i..], k - i)
  {
  }

  /** The token `compile` reads before a bad character ends before it, so
      the bad character is still ahead in what remains. */
  lemma BadCharAfterToken(s: string, k: nat) returns (m: nat, c: nat, v: Value)
    requires BadCharAt(s, k)
    requires Head(ParseSpaces(s)) != NUL && ParseToken(ParseSpaces(s)).Some?
    ensures m + c <= k
    ensures ParseSpaces(s) == s[m..] && Head(s[m..]) != NUL
    ensures ParseToken(s[m..]) == Some((v, s[m + c..]))
    ensures |s[m + c..]| < |s| && BadCharAt(s[m + c..], k - (m + c))
  {
    NonBlankAhead(s, k);
    m, c, v := CompileStepPositions(s);
    TokenChars(s, m, c, v);
    BadCharInSuffix(s, m + c, k);
  }

  /** A character that is neither whitespace, a digit nor a symbol character,
      met before any terminator, makes compilation fail. */
  lemma {:induction false} CompileRejectsBadChar(s: string, k: nat)
    requires BadCharAt(s, k)
    ensures Compile(s) == None
    decreases |s|
  {
    NonBlankAhead(s, k);
    if ParseToken(ParseSpaces(s)).Some? {
      var m, c, v := BadCharAfterToken(s, k);
      CompileRejectsBadChar(s[m + c..], k - (m + c));
      CompileUnfold(s, m, c, v);
    }
  }

  /** Every character of a digit run is a digit. */
  lemma DigitInRun(s: string, k: nat, n: nat, j: nat)
    requires DigitsAt(s, k, n) && k <= j < k + n
    ensures IsDigit(s[j]) && IsDigit(Head(s[j..]))
  {
    assert s[k..k + n][j - k] == s[j];
  }

  /** A run of `MaxNumLen` digits stands at `k`, with no terminator before it. */
  predicate LongRunAt(s: string, k: nat)
  {
    DigitsAt(s, k, MaxNumLen) && NulFreeBefore(s, k)
  }

  /** A token starting at or before a run of `MaxNumLen` digits ends before
      it: a symbol holds no digit, and a number token stops at a non-digit
      after fewer than `MaxNumLen` characters. */
  lemma TokenBeforeRun(s: string, k: nat, m: nat, c: nat, v: Value)
    requires DigitsAt(s, k, MaxNumLen) && m <= k
    requires m + c <= |s| && Head(s[m..]) != NUL && !IsSpace(Head(s[m..]))
    requires ParseToken(s[m..]) == Some((v, s[m + c..]))
    ensures m + c <= k
  {
    TokenChars(s, m, c, v);
    DigitInRun(s, k, MaxNumLen, k);
    if k < m + c && v.Int? {
      DigitInRun(s, k, MaxNumLen, m + c);
    }
  }

  /** A long digit run met before any terminator is still met, at its
      shifted position, in every suffix that contains it. */
  lemma LongRunInSuffix(s: string, i: nat, k: nat)
    requires i <= k && LongRunAt(s, k)
    ensures LongRunAt(s[i..], k - i)
  {
    DigitsAtShift(s, i, k, MaxNumLen);
  }

  /** A run of `MaxNumLen` digits before any terminator makes compilation
      fail, however the text around it is split into tokens. */
  lemma {:induction false} CompileRejectsLongDigitRun(s: string, k: nat)
    requires LongRunAt(s, k)
    ensures Compile(s) == None
    decreases |s|
  {
    DigitInRun(s, k, MaxNumLen, k);
    NonBlankAhead(s, k);
    if ParseToken(ParseSpaces(s)).Some? {
      var m, c, v := CompileStepPositions(s);
      TokenBeforeRun(s, k, m, c, v);
      LongRunInSuffix(s, m + c, k);
      CompileRejectsLongDigitRun(s[m + c..], k - (m + c));
      CompileUnfold(s, m, c, v);
    }
  }

  /** A number token of `MaxNumLen` characters, counting its `-`, at the
      start of the text makes compilation fail. */
  lemma CompileRejectsOverlongToken(t: string)
    requires Head(t) != NUL && !IsSpace(Head(t)) && StartsNumber(t) && Overlong(t)
    ensures Compile(t) == None
  {
    assert ParseSpaces(t) == t;
  }

  /** The same token after any printed literals still makes compilation fail. */
  lemma CompileRejectsOverlongAfterLiterals(xs: seq<int>, t: string)
    requires forall i :: 0 <= i < |xs| ==> |FormatInt(xs[i])| < MaxNumLen
    requires Head(t) != NUL && !IsSpace(Head(t)) && StartsNumber(t) && Overlong(t)
    ensures Compile(Unparse(xs) + t) == None
  {
    CompileRejectsOverlongToken(t);
    CompileUnparseThen(xs, t);
  }

  /** An overlong number token at position `m` holds a run of `MaxNumLen - 1`
      digits right after its first character. */
  lemma OverlongHasLimitRun(s: string, m: nat)
    requires m <= |s| && Overlong(s[m..])
    ensures LimitRunAt(s, m + 1)
  {
    var u := s[m..][..MaxNumLen];
    var sign := if u[0] == '-' then 1 else 0;
    var run := s[m + 1..m + MaxNumLen];
    assert AllDigits(u[sign..]);
    forall j | 0 <= j < |run| ensures IsDigit(run[j]) {
      assert run[j] == u[sign..][1 - sign + j];
    }
  }

  /** With no run of `MaxNumLen - 1` digits in the text, no number token
      reaches `MaxNumLen` characters, so the next token parses. */
  lemma ShortTokenParses(s: string)
    requires AllAllowed(s) && NoLimitRun(s)
    requires Head(ParseSpaces(s)) != NUL
    ensures ParseToken(ParseSpaces(s)).Some?
  {
    var t := ParseSpaces(s);
    var m := |s| - |t|;
    assert t[0] == s[m];
    if Overlong(t) {
      OverlongHasLimitRun(s, m);
    }
  }

  /** The absence of long digit runs carries over to every suffix. */
  lemma NoLimitRunInSuffix(s: string, i: nat)
    requires i <= |s| && NoLimitRun(s)
    ensures NoLimitRun(s[i..])
  {
    forall k ensures !LimitRunAt(s[i..], k) {
      DigitsAtSuffix(s, i, k, MaxNumLen - 1);
      assert !LimitRunAt(s, i + k);
    }
  }

  /** The characters of a suffix are characters of the text. */
  lemma AllowedSuffix(s: string, i: nat)
    requires i <= |s| && AllAllowed(s)
    ensures AllAllowed(s[i..])
  {
  }

  /** Text made only of whitespace, digits and symbol characters, with no run
      of `MaxNumLen - 1` digits, always compiles. */
  lemma {:induction false} CompileAcceptsShortTokens(s: string)
    requires AllAllowed(s) && NoLimitRun(s)
    ensures Compile(s).Some?
    decreases |s|
  {
    if Head(ParseSpaces(s)) != NUL {
      ShortTokenParses(s);
      var m, c, v := CompileStepPositions(s);
      AllowedSuffix(s, m + c);
      NoLimitRunInSuffix(s, m + c);
      CompileAcceptsShortTokens(s[m + c..]);
      CompileUnfold(s, m, c, v);
    }
  }

  /** Every symbol of a program is a word: a non-empty run of symbol characters. */
  predicate SymbolsAreWords(vs: seq<Value>)
  {
    forall i :: 0 <= i < |vs| ==> vs[i].Sym? ==> IsWord(vs[i].name)
  }

  /** A symbol in front of a program of words keeps it a program of words. */
  lemma SymbolsAreWordsCons(v: Value, vs: seq<Value>)
    requires v.Sym? ==> IsWord(v.name)
    requires SymbolsAreWords(vs)
    ensures SymbolsAreWords([v] + vs)
  {
    forall i | 0 <= i < |[v] + vs| && ([v] + vs)[i].Sym?
      ensures IsWord(([v] + vs)[i].name)
    {
      if i > 0 { assert ([v] + vs)[i] == vs[i - 1]; }
    }
  }

  /** A symbol token is a word. */
  lemma TokenSymbolIsWord(s: string)
    requires Head(s) != NUL && !IsSpace(Head(s))
    requires ParseToken(s).Some?
    ensures ParseToken(s).value.0.Sym? ==> IsWord(ParseToken(s).value.0.name)
  {
    if !StartsNumber(s) {
      var (v, rest) := ParseSymbol(s);
      assert v.name[0] == s[0];
    }
  }

  /** Whatever the text, every symbol `compile` produces is a non-empty run
      of symbol characters: no digit, no blank, no other character. */
  lemma {:induction false} CompileSymbolsAreWords(s: string)
    ensures Compile(s).Some? ==> SymbolsAreWords(Compile(s).value)
    decreases |s|
  {
    var t := ParseSpaces(s);
    if Head(t) != NUL {
      match ParseToken(t)
      case None =>
      case Some((v, rest)) =>
        CompileSymbolsAreWords(rest);
        if Compile(rest).Some? {
          TokenSymbolIsWord(t);
          SymbolsAreWordsCons(v, Compile(rest).value);
        }
    }
  }
}
