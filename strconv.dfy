/**
 * The pieces of Go's `strconv` package and of its fixed-width integers that
 * the core relies on: base-10 parsing with a range check (`ParseInt`,
 * `Atoi`), base-10 formatting (`%d`), and quoting of plain text.
 */
module Strconv {
  import opened Wrappers

  const Two31: int := 0x8000_0000
  const Two63: int := 0x8000_0000_0000_0000

  /** Go's `int32`. */
  type Int32 = x: int | -Two31 <= x < Two31
  /** Go's `int64`, and `int` on the 64-bit platforms the server runs on. */
  type Int64 = x: int | -Two63 <= x < Two63

  /** The `bitSize` argument of `strconv.ParseInt`; `Atoi` uses 64. */
  datatype BitSize = Bits32 | Bits64

  /** `1 << (bitSize - 1)`: values must lie in `[-Bound, Bound)`. */
  function Bound(size: BitSize): int
  {
    match size
    case Bits32 => Two31
    case Bits64 => Two63
  }

  /** Two's-complement wrap-around of an exact result into `int64`. */
  function Wrap64(x: int): (r: Int64)
    ensures -Two63 <= x < Two63 ==> r == x
    ensures (r - x) % (2 * Two63) == 0
  {
    (x + Two63) % (2 * Two63) - Two63
  }

  predicate IsDigit(c: char)
  {
    '0' <= c <= '9'
  }

  predicate AllDigits(s: string)
  {
    forall i :: 0 <= i < |s| ==> IsDigit(s[i])
  }

  function DigitValue(c: char): nat
    requires IsDigit(c)
  {
    c as int - '0' as int
  }

  function DigitChar(d: nat): (c: char)
    requires d < 10
    ensures IsDigit(c) && DigitValue(c) == d
  {
    ('0' as int + d) as char
  }

  /** The number a string of decimal digits denotes (most significant first). */
  function DigitsValue(s: string): nat
    requires AllDigits(s)
  {
    if s == [] then 0
    else 10 * DigitsValue(s[..|s| - 1]) + DigitValue(s[|s| - 1])
  }

  /** Shortest decimal digits of `n`. */
  function FormatNat(n: nat): (s: string)
    ensures |s| >= 1 && AllDigits(s)
    ensures DigitsValue(s) == n
  {
    if n < 10 then [DigitChar(n)]
    else
      var s := FormatNat(n / 10) + [DigitChar(n % 10)];
      assert s[..|s| - 1] == FormatNat(n / 10);
      s
  }

  /**
   * `fmt.Sprintf("%d", n)`: the decimal digits of `n`, behind a `-` when
   * `n` is negative.
   */
  function FormatInt(n: int): (s: string)
    ensures |s| >= 1
    ensures n >= 0 ==> AllDigits(s) && DigitsValue(s) == n
    ensures n < 0 ==> s[0] == '-' && AllDigits(s[1..]) && DigitsValue(s[1..]) == -n
  {
    if n < 0 then
      var s := ['-'] + FormatNat(-n);
      assert s[1..] == FormatNat(-n);
      s
    else FormatNat(n)
  }

  /**
   * `strconv.ParseInt(s, 10, bitSize)`: an optional `+` or `-`, then one or
   * more decimal digits (no `_` separators, since the base is given), whose
   * value must fit the signed width. Any failure, syntax or range, is `None`.
   */
  function ParseInt(s: string, size: BitSize): (r: Option<int>)
    ensures r.Some? ==> -Bound(size) <= r.value < Bound(size)
    ensures r.Some? ==> |s| >= 1 && forall i :: 0 <= i < |s| ==> IsDigit(s[i]) || (i == 0 && (s[i] == '+' || s[i] == '-'))
  {
    if s == [] then None
    else
      var digits := if s[0] == '+' || s[0] == '-' then s[1..] else s;
      if digits == [] || !AllDigits(digits) then None
      else
        var v: int := if s[0] == '-' then -(DigitsValue(digits) as int) else DigitsValue(digits);
        if -Bound(size) <= v < Bound(size) then Some(v) else None
  }

  /** `strconv.Atoi(s)` on a 64-bit platform. */
  function Atoi(s: string): (r: Option<Int64>)
    ensures r.Some? <==> ParseInt(s, Bits64).Some?
  {
    match ParseInt(s, Bits64)
    case Some(v) => Some(v)
    case None => None
  }

  /** Parsing what `%d` printed gives back the number, for every in-range value. */
  lemma ParseFormat(n: int, size: BitSize)
    requires -Bound(size) <= n < Bound(size)
    ensures ParseInt(FormatInt(n), size) == Some(n)
  {
    var s := FormatInt(n);
    if n < 0 {
      assert s[1..] == FormatNat(-n);
    }
  }

  /** Printable ASCII that `strconv.Quote` copies unescaped. */
  predicate Printable(s: string)
  {
    forall i :: 0 <= i < |s| ==> ' ' <= s[i] <= '~' && s[i] != '"' && s[i] != '\\'
  }

  /** `strconv.Quote(s)` for text that needs no escapes: `Unquote` gives `s` back. */
  function Quote(s: string): (q: string)
    requires Printable(s)
    ensures |q| == |s| + 2
    ensures Unquote(q) == Some(s)
  {
    var q := ['"'] + s + ['"'];
    assert q[1..|q| - 1] == s;
    q
  }

  /** Text between double quotes that `strconv.Unquote` takes literally. */
  predicate Unescaped(s: string)
  {
    forall i :: 0 <= i < |s| ==> s[i] != '"' && s[i] != '\\' && s[i] != '\n'
  }

  /**
   * `strconv.Unquote(q)` for a double-quoted literal without escape
   * sequences; anything else is `None`.
   */
  function Unquote(q: string): (r: Option<string>)
    ensures r.Some? ==> q == ['"'] + r.value + ['"']
  {
    if |q| >= 2 && q[0] == '"' && q[|q| - 1] == '"' && Unescaped(q[1..|q| - 1])
    then Some(q[1..|q| - 1])
    else None
  }
}
