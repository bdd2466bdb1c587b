/**
 * Decimal integer text as Go's `strconv` package reads and writes it on a
 * 64-bit platform: `strconv.Atoi` (also what parses the page count) and
 * `strconv.Itoa` / the `%d` verb of `fmt` (what names the page files).
 */
module GoStrconv {
  import opened Wrappers

  /** The range of Go's `int` on a 64-bit platform. */
  const MinInt: int := -0x8000_0000_0000_0000
  const MaxInt: int := 0x7FFF_FFFF_FFFF_FFFF

  predicate IsDigit(c: char) {
    '0' <= c <= '9'
  }

  predicate AllDigits(s: string) {
    forall i :: 0 <= i < |s| ==> IsDigit(s[i])
  }

  function DigitValue(c: char): (d: nat)
    requires IsDigit(c)
    ensures d < 10
  {
    c as int - '0' as int
  }

  function DigitChar(d: nat): (c: char)
    requires d < 10
    ensures IsDigit(c) && DigitValue(c) == d
  {
    ('0' as int + d) as char
  }

  /** The value of a run of decimal digits, accumulated left to right as `n*10 + d`. */
  function DigitsValue(s: string): nat
    requires AllDigits(s)
  {
    if s == [] then 0 else 10 * DigitsValue(s[..|s| - 1]) + DigitValue(s[|s| - 1])
  }

  /** The shortest decimal digits of `n`: no leading zero except for zero itself. */
  function DecimalDigits(n: nat): (s: string)
    ensures s != [] && AllDigits(s)
    ensures s[0] == '0' ==> n == 0 && s == "0"
  {
    if n < 10 then [DigitChar(n)] else DecimalDigits(n / 10) + [DigitChar(n % 10)]
  }

  lemma {:induction false} DecimalDigitsValue(n: nat)
    ensures DigitsValue(DecimalDigits(n)) == n
  {
    if n >= 10 {
      var s := DecimalDigits(n);
      DecimalDigitsValue(n / 10);
      assert s[..|s| - 1] == DecimalDigits(n / 10);
    }
  }

  /**
   * strconv.Itoa, and what `%d` prints: '-' exactly for a negative value, then
   * the shortest decimal digits of its magnitude.
   */
  function Itoa(n: int): (s: string)
    ensures s != [] && (s[0] == '-' <==> n < 0)
    ensures var digits := if n < 0 then s[1..] else s;
      && digits != [] && AllDigits(digits)
      && DigitsValue(digits) == (if n < 0 then -n else n)
      && (digits[0] == '0' ==> n == 0)
    ensures n == 0 ==> s == "0"
  {
    if n < 0 then
      DecimalDigitsValue(-n);
      "-" + DecimalDigits(-n)
    else
      DecimalDigitsValue(n);
      DecimalDigits(n)
  }

  /** The text after an optional leading '+' or '-'. */
  function Unsigned(s: string): string
  {
    if s != [] && (s[0] == '+' || s[0] == '-') then s[1..] else s
  }

  /** The syntax strconv.Atoi accepts: an optional sign, then one or more ASCII digits. */
  predicate IsDecimal(s: string) {
    Unsigned(s) != [] && AllDigits(Unsigned(s))
  }

  /** The value of a signed decimal, without bound. */
  function DecimalValue(s: string): int
    requires IsDecimal(s)
  {
    var magnitude: int := DigitsValue(Unsigned(s));
    if s[0] == '-' then -magnitude else magnitude
  }

  /**
   * strconv.Atoi: the value of a signed decimal, or an error when the text is
   * not one (empty, a lone sign, any other character, underscores included) or
   * when the value does not fit in a 64-bit `int`.
   */
  function Atoi(s: string): (r: Option<int>)
    ensures r.Some? <==> IsDecimal(s) && MinInt <= DecimalValue(s) <= MaxInt
    ensures r.Some? ==> r.value == DecimalValue(s)
    ensures r.Some? && r.value < 0 ==> s[0] == '-'
  {
    if !IsDecimal(s) then None
    else
      var v := DecimalValue(s);
      if v < MinInt || v > MaxInt then None else Some(v)
  }

  /** What Itoa writes, Atoi reads back, for every value an `int` can hold. */
  lemma AtoiItoa(n: int)
    requires MinInt <= n <= MaxInt
    ensures Atoi(Itoa(n)) == Some(n)
  {
    var s := Itoa(n);
    if n < 0 {
      DecimalDigitsValue(-n);
      assert Unsigned(s) == DecimalDigits(-n);
    } else {
      DecimalDigitsValue(n);
      assert Unsigned(s) == DecimalDigits(n);
    }
  }

  /** Different values print differently: Itoa is injective. */
  lemma ItoaInjective(m: int, n: int)
    requires Itoa(m) == Itoa(n)
    ensures m == n
  {
    var s := Itoa(m);
    assert (m < 0) == (s[0] == '-') == (n < 0);
    if m < 0 {
      assert s[1..] == DecimalDigits(-m) == DecimalDigits(-n);
      DecimalDigitsValue(-m);
      DecimalDigitsValue(-n);
    } else {
      DecimalDigitsValue(m);
      DecimalDigitsValue(n);
    }
  }
}
