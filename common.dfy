/** Small shared vocabulary: an optional value, the byte type the lexer reads,
    and the decimal rendering that Go's `%d` verb produces. */
module Common {

  /** A value that may be absent (Go's nil, or the `, ok` idiom). */
  datatype Option<+T> = None | Some(value: T)

  /** A byte of source text, seen as the character with that code. */
  type Byte = c: char | c as int < 256 witness '\0'

  const NUL: Byte := '\0'

  predicate IsDigit(c: char) {
    '0' <= c <= '9'
  }

  predicate AllDigits(s: string) {
    forall i :: 0 <= i < |s| ==> IsDigit(s[i])
  }

  function DigitChar(d: nat): (c: char)
    requires d < 10
    ensures IsDigit(c) && c as int - '0' as int == d
  {
    ('0' as int + d) as char
  }

  /** The value of a digit string read in the given base, most significant digit first. */
  function DigitsValue(s: string, base: nat): nat
    requires AllDigits(s)
  {
    if s == [] then 0
    else DigitsValue(s[..|s| - 1], base) * base + (s[|s| - 1] as int - '0' as int)
  }

  /** Decimal rendering of a natural number without leading zeros. */
  function NatDecimal(n: nat): (s: string)
    ensures |s| >= 1 && AllDigits(s)
    ensures s[0] == '0' <==> n == 0
    ensures n == 0 ==> s == "0"
    ensures DigitsValue(s, 10) == n
    decreases n
  {
    if n < 10 then [DigitChar(n)]
    else
      var prefix := NatDecimal(n / 10);
      var s := prefix + [DigitChar(n % 10)];
      assert s[..|s| - 1] == prefix;
      s
  }

  /** Decimal rendering of an integer, as Go's `%d` writes it: a leading `-` when negative. */
  function Decimal(i: int): (s: string)
    ensures |s| > 0 && (s[0] == '-' <==> i < 0) && (s[0] == '-' || IsDigit(s[0]))
    ensures i == 0 ==> s == "0"
  {
    if i < 0 then "-" + NatDecimal(-i) else NatDecimal(i)
  }

  /** Reads back a rendering produced by Decimal. */
  function ReadDecimal(s: string): Option<int> {
    if |s| > 0 && s[0] == '-' && AllDigits(s[1..]) && |s| > 1 then Some(-(DigitsValue(s[1..], 10) as int))
    else if |s| > 0 && AllDigits(s) then Some(DigitsValue(s, 10))
    else None
  }

  /** Decimal is injective: reading its output back gives the number. */
  lemma DecimalRoundTrip(i: int)
    ensures ReadDecimal(Decimal(i)) == Some(i)
  {
    if i < 0 {
      var s := Decimal(i);
      assert s[1..] == NatDecimal(-i);
    }
  }

  /** A nonempty slice is its first element followed by the rest. */
  lemma SliceCons<T>(s: seq<T>, i: int, j: int)
    requires 0 <= i < j <= |s|
    ensures s[i..j] == [s[i]] + s[i + 1..j]
  {
    assert s[i..j][0] == s[i];
    assert s[i..j][1..] == s[i + 1..j];
  }

  /** A slice splits around any position inside it. */
  lemma SliceAround<T>(s: seq<T>, i: int, k: int, j: int)
    requires 0 <= i <= k < j <= |s|
    ensures s[i..j] == s[i..k] + [s[k]] + s[k + 1..j]
  {
    assert s[i..j] == s[i..k] + s[k..j];
    assert s[k..j] == [s[k]] + s[k + 1..j];
  }
}
