/** The object model of main.c, reduced to what the interpreter pipeline
    uses: the program elements the parser builds, the string and symbol
    objects that name table entries, and the append operation shared by the
    parsed program and the operand stack. Reference counts are not modelled. */
module Objects {

  /** An element of a parsed program: an integer object or a symbol object.
      The parser builds no other kind. */
  datatype Value = Int(n: int) | Sym(name: string)

  /** A program made of integer literals only. */
  function IntLiterals(xs: seq<int>): (p: seq<Value>)
    ensures |p| == |xs|
    ensures forall i :: 0 <= i < |xs| ==> p[i] == Int(xs[i])
  {
    if |xs| == 0 then [] else [Int(xs[0])] + IntLiterals(xs[1..])
  }

  /** The literals after the first are the literals of the tail. */
  lemma IntLiteralsTail(xs: seq<int>)
    requires |xs| > 0
    ensures IntLiterals(xs)[0] == Int(xs[0])
    ensures IntLiterals(xs)[1..] == IntLiterals(xs[1..])
  {
  }

  /** The two textual object tags. */
  datatype TextKind = Str | Symbol

  /** A string or symbol object: its tag and its bytes, whose length is authoritative. */
  datatype Text = Text(kind: TextKind, bytes: string)

  /** `memcmp(a, b, n)`: zero exactly when the first `n` bytes agree,
      otherwise the sign of the first difference. */
  function Memcmp(a: string, b: string, n: nat): (r: int)
    requires n <= |a| && n <= |b|
    ensures r == 0 <==> a[..n] == b[..n]
    ensures -1 <= r <= 1
  {
    if n == 0 then 0
    else if a[0] != b[0] then (if a[0] < b[0] then -1 else 1)
    else
      assert a[..n] == [a[0]] + a[1..][..n - 1];
      assert b[..n] == [b[0]] + b[1..][..n - 1];
      Memcmp(a[1..], b[1..], n - 1)
  }

  /** `compareStringObjects`: 0 when both objects hold the same bytes, 1
      otherwise. The string/symbol tag takes no part in the comparison. */
  function CompareStringObjects(a: Text, b: Text): (r: int)
    ensures r == 0 || r == 1
    ensures r == 0 <==> a.bytes == b.bytes
  {
    if |a.bytes| != |b.bytes| then 1
    else if Memcmp(a.bytes, b.bytes, |a.bytes|) != 0 then 1
    else
      assert a.bytes == a.bytes[..|a.bytes|] && b.bytes == b.bytes[..|b.bytes|];
      0
  }

  /** `listPush`: append one element at the end, leaving the others in place. */
  function ListPush<T>(l: seq<T>, x: T): (r: seq<T>)
    ensures |r| == |l| + 1
    ensures r[..|l|] == l && r[|l|] == x
  {
    l + [x]
  }

  /** Pushing the first of `xs`, then appending the rest, appends all of `xs`. */
  lemma PushThenRest<T>(l: seq<T>, xs: seq<T>)
    requires |xs| > 0
    ensures ListPush(l, xs[0]) + xs[1..] == l + xs
  {
  }

  /** Appending the empty sequence changes nothing. */
  lemma AppendNothing<T>(a: seq<T>)
    ensures a + [] == a
  {
  }

  /** Appending to the empty sequence changes nothing. */
  lemma NothingAppend<T>(a: seq<T>)
    ensures [] + a == a
  {
  }
}
