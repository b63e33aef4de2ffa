/** The parts of the C library and language the interpreter leans on, in the
    "C" locale: character classification (section 7.4 of ISO/IEC 9899:1999),
    integer division and remainder (section 6.5.5), `atoi` on the decimal
    numerals the parser hands it (section 7.20.1.2) and the `%d` rendering
    of `printf` used to write integers back out. */
module CLib {
  import opened Wrappers

  /** The terminator of a C string. */
  const NUL: char := '\0'

  /** The character under a cursor into a NUL-terminated buffer: reading at
      the end of the Dafny string yields the terminator. */
  function Head(s: string): char
  {
    if |s| == 0 then NUL else s[0]
  }

  /** `strchr(s, c)`: the index of the first `c` in the C string `s`. The
      terminator at index `|s|` belongs to the string, so NUL is found there. */
  function Strchr(s: string, c: char): (r: Option<nat>)
    requires forall k :: 0 <= k < |s| ==> s[k] != NUL
    ensures r.Some? ==> r.value <= |s|
    ensures r.Some? && r.value < |s| ==> s[r.value] == c
    ensures r.Some? && r.value == |s| ==> c == NUL
    ensures r.Some? ==> forall k :: 0 <= k < r.value ==> s[k] != c
    ensures r.None? <==> c != NUL && c !in s
    decreases |s|
  {
    if |s| == 0 then (if c == NUL then Some(0) else None)
    else if s[0] == c then Some(0)
    else match Strchr(s[1..], c)
      case None => None
      case Some(i) => Some(i + 1)
  }

  /** `isspace`: space, tab, newline, vertical tab, form feed, carriage return. */
  predicate IsSpace(c: char)
  {
    c == ' ' || c == '\t' || c == '\n' || c == '\U{B}' || c == '\U{C}' || c == '\r'
  }

  /** `isdigit` */
  predicate IsDigit(c: char)
  {
    '0' <= c <= '9'
  }

  /** `isalpha`: only the ASCII letters in the "C" locale. */
  predicate IsAlpha(c: char)
  {
    'A' <= c <= 'Z' || 'a' <= c <= 'z'
  }

  predicate AllDigits(s: string)
  {
    forall k :: 0 <= k < |s| ==> IsDigit(s[k])
  }

  /** A decimal numeral as the parser cuts it out: an optional `-` and at least one digit. */
  predicate IsNumeral(s: string)
  {
    var sign := if |s| > 0 && s[0] == '-' then 1 else 0;
    |s| > sign && AllDigits(s[sign..])
  }

  function DigitValue(c: char): (d: nat)
    requires IsDigit(c)
    ensures d < 10
    ensures c == "0123456789"[d]
  {
    (c as int - '0' as int) as nat
  }

  function DigitChar(d: nat): (c: char)
    requires d < 10
    ensures IsDigit(c) && DigitValue(c) == d
  {
    "0123456789"[d]
  }

  /** The value of a run of decimal digits, most significant first. */
  function DecimalValue(ds: string): nat
    requires AllDigits(ds)
  {
    if |ds| == 0 then 0
    else DecimalValue(ds[..|ds| - 1]) * 10 + DigitValue(ds[|ds| - 1])
  }

  /** `atoi` on the buffers `parseNumber` fills: empty, or a numeral. Integers
      are unbounded here; the C `int` range is not modelled. */
  function Atoi(s: string): (r: int)
    requires s == [] || IsNumeral(s)
    ensures s == [] ==> r == 0
    ensures s != [] ==> Abs(r) == DecimalValue(s[(if s[0] == '-' then 1 else 0)..])
    ensures r < 0 ==> s[0] == '-'
    ensures s != [] && s[0] == '-' ==> r <= 0
  {
    if s == [] then 0
    else if s[0] == '-' then -(DecimalValue(s[1..]) as int)
    else DecimalValue(s)
  }

  /** Decimal digits of a natural number, without leading zeros. */
  function FormatNat(n: nat): (s: string)
    ensures |s| > 0 && AllDigits(s)
    ensures s[0] == '0' ==> n == 0
  {
    if n < 10 then [DigitChar(n)]
    else FormatNat(n / 10) + [DigitChar(n % 10)]
  }

  /** `printf("%d", n)` */
  function FormatInt(n: int): (s: string)
    ensures IsNumeral(s)
    ensures s[0] == '-' <==> n < 0
  {
    if n < 0 then "-" + FormatNat(-n) else FormatNat(n)
  }

  lemma {:induction false} DecimalValueFormatNat(n: nat)
    ensures DecimalValue(FormatNat(n)) == n
  {
    if n >= 10 {
      var s := FormatNat(n);
      assert s[..|s| - 1] == FormatNat(n / 10);
      DecimalValueFormatNat(n / 10);
    }
  }

  /** `atoi` of a minus sign and digits is the negated value of the digits. */
  lemma AtoiNegated(d: string)
    requires |d| > 0 && AllDigits(d)
    ensures IsNumeral("-" + d)
    ensures Atoi("-" + d) == -(DecimalValue(d) as int)
  {
    assert ("-" + d)[1..] == d;
  }

  /** `atoi` of digits alone is their value. */
  lemma AtoiDigits(d: string)
    requires |d| > 0 && AllDigits(d)
    ensures IsNumeral(d)
    ensures Atoi(d) == DecimalValue(d)
  {
    assert IsDigit(d[0]);
  }

  /** Reading back what `%d` writes gives the integer again. */
  lemma AtoiFormatInt(n: int)
    ensures Atoi(FormatInt(n)) == n
  {
    if n < 0 {
      var d := FormatNat(-n);
      assert FormatInt(n) == "-" + d;
      AtoiNegated(d);
      DecimalValueFormatNat(-n);
    } else {
      var d := FormatNat(n);
      assert FormatInt(n) == d;
      AtoiDigits(d);
      DecimalValueFormatNat(n);
    }
  }

  function Abs(x: int): nat
  {
    if x < 0 then -x else x
  }

  /** `a / b` on C integers: the algebraic quotient with any fractional part
      discarded, so it rounds toward zero (Dafny's own `/` is Euclidean). */
  function CDiv(a: int, b: int): (q: int)
    requires b != 0
    ensures Abs(q) == Abs(a) / Abs(b)
    ensures q > 0 ==> (a > 0) == (b > 0)
    ensures q < 0 ==> (a > 0) != (b > 0)
  {
    if a >= 0 then a / b else -((-a) / b)
  }

  /** The C remainder is the Euclidean one of the dividend's magnitude,
      carrying the dividend's sign. */
  lemma CModValue(a: int, b: int)
    requires b != 0
    ensures a - CDiv(a, b) * b == if a >= 0 then a % b else -((-a) % b)
  {
    if a >= 0 {
      assert CDiv(a, b) == a / b;
    } else {
      assert CDiv(a, b) == -((-a) / b);
      assert a - CDiv(a, b) * b == -((-a) - ((-a) / b) * b);
    }
  }

  /** `a % b` on C integers: `(a / b) * b + a % b == a`, so the remainder
      takes the sign of the dividend. */
  function CMod(a: int, b: int): (r: int)
    requires b != 0
    ensures CDiv(a, b) * b + r == a
    ensures Abs(r) < Abs(b)
    ensures a >= 0 ==> r >= 0
    ensures a < 0 ==> r <= 0
  {
    CModValue(a, b);
    a - CDiv(a, b) * b
  }
}
