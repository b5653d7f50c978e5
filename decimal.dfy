/** Base-10 integer text, as Go's `strconv.Atoi` reads it and as `fmt`'s `%d`
    writes it. Go's `int` is 64 bits wide here, so a value outside that range
    is a parse error (`strconv.ErrRange`), exactly like malformed text. */
module Decimal {
  import opened Results

  const MinInt64: int := -0x8000_0000_0000_0000
  const MaxInt64: int := 0x7fff_ffff_ffff_ffff

  predicate IsDigit(c: char) { '0' <= c <= '9' }

  predicate AllDigits(s: string) { forall i :: 0 <= i < |s| ==> IsDigit(s[i]) }

  function DigitValue(c: char): (d: nat)
    requires IsDigit(c)
    ensures d < 10
  {
    c as int - '0' as int
  }

  function DigitChar(d: nat): (c: char)
    requires d < 10
    ensures IsDigit(c) && DigitValue(c) == d
  {
    ('0' as int + d) as char
  }

  /** The value of a digit string, most significant digit first. */
  function DigitsValue(s: string): nat
    requires AllDigits(s)
  {
    if s == [] then 0 else 10 * DigitsValue(s[..|s| - 1]) + DigitValue(s[|s| - 1])
  }

  /** The text after one optional leading sign. */
  function Unsigned(s: string): (u: string)
    ensures |u| <= |s|
  {
    if |s| > 0 && (s[0] == '+' || s[0] == '-') then s[1..] else s
  }

  /** The text is an optional sign followed by at least one digit. */
  predicate Numeral(s: string)
  {
    |Unsigned(s)| > 0 && AllDigits(Unsigned(s))
  }

  /** The value a numeral denotes, with no range limit. */
  function NumeralValue(s: string): int
    requires Numeral(s)
  {
    var magnitude: int := DigitsValue(Unsigned(s));
    if s[0] == '-' then -magnitude else magnitude
  }

  /** `strconv.Atoi(s)`: `Some(n)` when `err == nil`, `None` for every error
      (syntax or range). Leading zeros and a `+` sign are accepted, as Go does:
      `"+5"`, `"007"` and `"-0"` read as 5, 7 and 0. */
  function Atoi(s: string): (r: Option<int>)
    ensures r.Some? ==> MinInt64 <= r.value <= MaxInt64
    ensures r.Some? ==> Numeral(s) && r.value == NumeralValue(s)
    ensures Numeral(s) && MinInt64 <= NumeralValue(s) <= MaxInt64 ==> r.Some?
    ensures r.Some? ==> (r.value < 0 ==> s[0] == '-')
    ensures s == "" ==> r == None
  {
    if !Numeral(s) then None
    else
      var v := NumeralValue(s);
      if MinInt64 <= v <= MaxInt64 then Some(v) else None
  }

  /** The `%d` rendering of a natural number: digits only, no leading zero. */
  function NatString(n: nat): (s: string)
    ensures |s| > 0 && AllDigits(s)
    ensures |s| > 1 ==> s[0] != '0'
    ensures s[0] == '0' <==> n == 0
  {
    if n < 10 then [DigitChar(n)] else NatString(n / 10) + [DigitChar(n % 10)]
  }

  /** Text as `%d` writes it: an optional `-`, then digits with no leading
      zero, never `-0` and never a `+`. */
  predicate Canonical(s: string)
  {
    var d := if |s| > 0 && s[0] == '-' then s[1..] else s;
    && |d| > 0 && AllDigits(d)
    && (|d| > 1 ==> d[0] != '0')
    && (|s| > 0 && s[0] == '-' ==> d[0] != '0')
  }

  /** The `%d` rendering of an integer. */
  function DecimalString(n: int): (s: string)
    ensures |s| > 0 && Canonical(s)
    ensures (s[0] == '-') == (n < 0)
  {
    if n < 0 then "-" + NatString(-n) else NatString(n)
  }

  lemma {:induction false} NatStringValue(n: nat)
    ensures DigitsValue(NatString(n)) == n
  {
    var s := NatString(n);
    if n >= 10 {
      NatStringValue(n / 10);
      assert s[..|s| - 1] == NatString(n / 10);
    } else {
      assert s[..|s| - 1] == [];
    }
  }

  /** `%d`'s text is a numeral denoting the number it was written from. */
  lemma NumeralOfDecimalString(n: int)
    ensures Numeral(DecimalString(n)) && NumeralValue(DecimalString(n)) == n
  {
    var s := DecimalString(n);
    if n < 0 {
      assert Unsigned(s) == NatString(-n);
      NatStringValue(-n);
    } else {
      assert Unsigned(s) == NatString(n);
      NatStringValue(n);
    }
  }

  /** Reading back what `%d` wrote gives the number again, for every 64-bit value. */
  lemma AtoiDecimalString(n: int)
    requires MinInt64 <= n <= MaxInt64
    ensures Atoi(DecimalString(n)) == Some(n)
  {
    NumeralOfDecimalString(n);
  }

  /** Forms `%d` never writes that `strconv.Atoi` still reads: a `+` sign,
      leading zeros, a negative zero. `SERVER_PORT=08082` is port 8082. */
  lemma AtoiAcceptsSignsAndZeros()
    ensures Atoi("+5") == Some(5)
    ensures Atoi("007") == Some(7)
    ensures Atoi("-0") == Some(0)
    ensures Atoi("08082") == Some(8082)
  {
    assert Unsigned("+5") == "5";
    assert Unsigned("-0") == "0";
    assert "007"[..2] == "00" && "00"[..1] == "0";
    assert "08082"[..4] == "0808";
    assert "0808"[..3] == "080";
    assert "080"[..2] == "08";
    assert "08"[..1] == "0";
    assert DigitsValue("0808") == 808;
  }

  /** Text that is not a number falls back: the `/users/abc` case. */
  lemma AtoiRejectsWords()
    ensures Atoi("abc") == None
    ensures Atoi("") == None
    ensures Atoi("-") == None
    ensures Atoi("12a") == None
  {
    assert !IsDigit("abc"[0]);
    assert !IsDigit("12a"[2]);
  }
}
