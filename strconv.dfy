/** The parts of Go's `strconv` the service uses: decimal integer parsing
    (`ParseInt(s, 10, 64)`, and `Atoi`, which is the same thing where Go's
    `int` is 64 bits wide), `ParseBool`, and decimal formatting as the
    inverse of parsing. */
module StrConv {
  import opened Wrappers

  const MinInt64: int := -0x8000_0000_0000_0000
  const MaxInt64: int := 0x7FFF_FFFF_FFFF_FFFF

  predicate IsDigit(c: char) { '0' <= c <= '9' }

  predicate AllDigits(s: string) {
    forall i :: 0 <= i < |s| ==> IsDigit(s[i])
  }

  /** The value of a run of decimal digits, most significant first. */
  function DigitsValue(s: string): nat
    requires AllDigits(s)
    decreases |s|
  {
    if |s| == 0 then 0
    else DigitsValue(s[..|s| - 1]) * 10 + (s[|s| - 1] as int - '0' as int)
  }

  /** The text without its sign, and whether that sign was '-'. */
  function SplitSign(s: string): (string, bool)
    requires |s| > 0
  {
    if s[0] == '+' || s[0] == '-' then (s[1..], s[0] == '-') else (s, false)
  }

  /** The value of a run of digits under a sign; 0 for text that is not digits. */
  function SignedValue(body: string, negative: bool): int {
    if !AllDigits(body) then 0
    else if negative then 0 - DigitsValue(body) else DigitsValue(body)
  }

  /** strconv.ParseInt(s, 10, 64): an optional sign, then one or more
      decimal digits, and a value that fits in 64 bits; None is the error. */
  function ParseInt(s: string): (r: Option<int>)
    ensures r.Some? ==> MinInt64 <= r.value <= MaxInt64
    ensures r.Some? ==> |s| > 0 && |SplitSign(s).0| > 0 && AllDigits(SplitSign(s).0)
    ensures r.Some? && |s| > 0 && s[0] == '-' ==> r.value <= 0
    ensures r.Some? && |s| > 0 && s[0] != '-' ==> r.value >= 0
    ensures r.Some? ==> r.value == SignedValue(SplitSign(s).0, SplitSign(s).1)
    ensures (|s| > 0 && |SplitSign(s).0| > 0 && AllDigits(SplitSign(s).0) &&
             MinInt64 <= SignedValue(SplitSign(s).0, SplitSign(s).1) <= MaxInt64) ==> r.Some?
  {
    if |s| == 0 then None
    else
      var (body, negative) := SplitSign(s);
      if |body| == 0 || !AllDigits(body) then None
      else
        var v := SignedValue(body, negative);
        if MinInt64 <= v <= MaxInt64 then Some(v) else None
  }

  /** ParseInt takes a leading '+', leading zeros and a negative zero. */
  lemma ParseIntLenientForms()
    ensures ParseInt("+5") == Some(5)
    ensures ParseInt("007") == Some(7)
    ensures ParseInt("-0") == Some(0)
    ensures ParseInt("-42") == Some(-42)
    ensures ParseInt("") == None && ParseInt("-") == None && ParseInt("1_000") == None
  {
    assert SplitSign("+5").0 == "5";
    assert SplitSign("-0").0 == "0";
    assert SplitSign("-42").0 == "42" && "42"[..1] == "4";
    assert "007"[..2] == "00" && "00"[..1] == "0";
    assert !IsDigit("1_000"[1]);
  }

  /** strconv.Atoi on a 64-bit platform. */
  function Atoi(s: string): Option<int>
  {
    ParseInt(s)
  }

  /** strconv.ParseBool: the twelve spellings Go accepts. */
  function ParseBool(s: string): (r: Option<bool>)
    ensures r == Some(true) <==> s in {"1", "t", "T", "TRUE", "true", "True"}
    ensures r == Some(false) <==> s in {"0", "f", "F", "FALSE", "false", "False"}
  {
    if s == "1" || s == "t" || s == "T" || s == "TRUE" || s == "true" || s == "True" then Some(true)
    else if s == "0" || s == "f" || s == "F" || s == "FALSE" || s == "false" || s == "False" then Some(false)
    else None
  }

  /** Decimal digits of a natural number, without leading zeros. */
  function FormatNat(n: nat): (r: string)
    ensures |r| > 0 && AllDigits(r)
    decreases n
  {
    if n < 10 then [('0' as int + n) as char]
    else FormatNat(n / 10) + [('0' as int + n % 10) as char]
  }

  /** strconv.FormatInt(n, 10). */
  function FormatInt(n: int): (r: string)
    ensures |r| > 0
  {
    if n < 0 then "-" + FormatNat(-n) else FormatNat(n)
  }

  lemma {:induction false} DigitsOfFormat(n: nat)
    ensures DigitsValue(FormatNat(n)) == n
    decreases n
  {
    if n >= 10 {
      var r := FormatNat(n);
      assert r[..|r| - 1] == FormatNat(n / 10);
      DigitsOfFormat(n / 10);
    }
  }

  /** Parsing the decimal form of a 64-bit integer gives it back. */
  lemma ParseFormat(n: int)
    requires MinInt64 <= n <= MaxInt64
    ensures ParseInt(FormatInt(n)) == Some(n)
  {
    if n < 0 {
      DigitsOfFormat(-n);
      assert SplitSign(FormatInt(n)).0 == FormatNat(-n);
    } else {
      DigitsOfFormat(n);
      assert FormatInt(n)[0] != '+' && FormatInt(n)[0] != '-';
    }
  }
}
