/** Integer literal conversion as the parser does it: strconv.ParseInt with base 0
    (the prefix picks the base) and a 64-bit result. */
module Strconv {
  import opened Common

  /** The largest value of a Go int64. */
  const MaxInt64: int := 0x7FFF_FFFF_FFFF_FFFF

  predicate IsOctalDigit(c: char) {
    '0' <= c <= '7'
  }

  predicate AllOctal(s: string) {
    forall i :: 0 <= i < |s| ==> IsOctalDigit(s[i])
  }

  /** strconv.ParseInt(s, 0, 64) on a run of decimal digits: a leading `0` makes the
      rest an octal numeral (so `0` alone is zero and `08` is a syntax error), any
      other run is decimal, and a value above MaxInt64 is a range error. */
  function ParseInt(s: string): (r: Option<int>)
    ensures r.Some? ==> 0 <= r.value <= MaxInt64
    ensures r.Some? ==> |s| > 0 && AllDigits(s)
    ensures |s| > 0 && AllDigits(s) && s[0] != '0' ==>
              r == (if DigitsValue(s, 10) <= MaxInt64 then Some(DigitsValue(s, 10)) else None)
  {
    if |s| == 0 || !AllDigits(s) then None
    else if s[0] == '0' && !AllOctal(s[1..]) then None
    else
      var v := if s[0] == '0' then DigitsValue(s[1..], 8) else DigitsValue(s, 10);
      if v <= MaxInt64 then Some(v) else None
  }

  /** Every int64 value that is not negative reads back from its decimal rendering. */
  lemma ParseIntDecimal(n: nat)
    requires n <= MaxInt64
    ensures ParseInt(NatDecimal(n)) == Some(n)
  {
    if n == 0 {
      assert NatDecimal(0) == "0";
      assert NatDecimal(0)[1..] == "";
    }
  }

  /** A decimal literal beyond MaxInt64 is rejected rather than wrapped. */
  lemma ParseIntOverflow(n: nat)
    requires n > MaxInt64
    ensures ParseInt(NatDecimal(n)) == None
  {
  }

  /** A leading zero selects octal: `0` followed by octal digits has their base-8
      value, and a following `8` or `9` makes the literal an error. */
  lemma ParseIntLeadingZero(s: string)
    requires AllOctal(s)
    ensures AllDigits(s)
    ensures DigitsValue(s, 8) <= MaxInt64 ==> ParseInt("0" + s) == Some(DigitsValue(s, 8))
    ensures ParseInt("0" + s + "8") == None && ParseInt("0" + s + "9") == None
  {
    assert ("0" + s)[1..] == s;
    var t := "0" + s + "8";
    assert t[|t| - 1] == '8' && !IsOctalDigit(t[1..][|t| - 2]);
    var u := "0" + s + "9";
    assert u[|u| - 1] == '9' && !IsOctalDigit(u[1..][|u| - 2]);
  }

  /** Two instances: `010` is eight and `09` is an error. */
  lemma ParseIntOctalExamples()
    ensures ParseInt("010") == Some(8)
    ensures ParseInt("09") == None
  {
    ParseIntLeadingZero("1");
    ParseIntLeadingZero("");
    assert "0" + "1" == "01";
    assert DigitsValue("10", 8) == 8 by {
      assert "10"[..1] == "1";
      assert "1"[..0] == "";
    }
    assert "010"[1..] == "10";
    assert "0" + "" + "9" == "09";
  }
}
