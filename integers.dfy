/**
 * Python's `int(text)` for an already stripped string, restricted to its
 * ASCII grammar: an optional sign followed by decimal digits, where single
 * underscores may separate digits, and at most as many digits as Python's
 * default limit on integer string conversion allows.
 */
module Integers {
  import opened Wrappers

  predicate IsDigit(c: char)
  {
    '0' <= c <= '9'
  }

  /** A run of digits that starts with a digit and has each underscore followed by a digit. */
  predicate IsDigitRun(s: string)
  {
    && |s| > 0
    && IsDigit(s[0])
    && forall i | 0 <= i < |s| :: IsDigit(s[i]) || (s[i] == '_' && i + 1 < |s| && IsDigit(s[i + 1]))
  }

  /** The number the digits of `s` spell, underscores skipped. */
  function DigitsValue(s: string): nat
  {
    if s == [] then 0
    else
      var last := s[|s| - 1];
      var v := DigitsValue(s[..|s| - 1]);
      if IsDigit(last) then 10 * v + (last as int - '0' as int) else v
  }

  /** Number of digits in `s`, underscores not counted. */
  function DigitCount(s: string): nat
  {
    if s == [] then 0
    else DigitCount(s[..|s| - 1]) + (if IsDigit(s[|s| - 1]) then 1 else 0)
  }

  /**
   * `sys.int_info.default_max_str_digits`: `int()` of a string with more
   * digits than this raises `ValueError`.
   */
  const MaxStrDigits: nat := 4300

  /** A digit run that `int()` converts: within the digit limit. */
  predicate IsNumeral(s: string)
  {
    IsDigitRun(s) && DigitCount(s) <= MaxStrDigits
  }

  /** `int(s)`: `None` is the `ValueError` Python raises. */
  function ParseInt(s: string): Option<int>
  {
    if |s| > 0 && (s[0] == '-' || s[0] == '+') then
      if IsNumeral(s[1..]) then
        var magnitude: int := DigitsValue(s[1..]);
        Some(if s[0] == '-' then -magnitude else magnitude)
      else None
    else if IsNumeral(s) then Some(DigitsValue(s))
    else None
  }

  function Digit(d: nat): (c: char)
    requires d < 10
    ensures IsDigit(c) && c as int - '0' as int == d
  {
    ('0' as int + d) as char
  }

  /** Decimal notation of a natural number, as `str(n)` prints it. */
  function FormatNat(n: nat): string
  {
    if n < 10 then [Digit(n)] else FormatNat(n / 10) + [Digit(n % 10)]
  }

  function FormatInt(i: int): string
  {
    if i < 0 then "-" + FormatNat(-i) else FormatNat(i)
  }

  lemma {:induction false} FormatNatIsDigitRun(n: nat)
    ensures IsDigitRun(FormatNat(n))
    ensures forall k | 0 <= k < |FormatNat(n)| :: IsDigit(FormatNat(n)[k])
    ensures DigitsValue(FormatNat(n)) == n
    ensures DigitCount(FormatNat(n)) == |FormatNat(n)|
  {
    if n >= 10 {
      FormatNatIsDigitRun(n / 10);
      var s := FormatNat(n);
      assert s[..|s| - 1] == FormatNat(n / 10);
    }
  }

  function Pow10(d: nat): (p: nat)
    ensures p >= 1
  {
    if d == 0 then 1 else 10 * Pow10(d - 1)
  }

  /** A natural number's decimal form has at most `d` digits exactly when it is below `10^d`. */
  lemma {:induction false} FormatNatLength(n: nat, d: nat)
    requires d > 0
    ensures |FormatNat(n)| <= d <==> n < Pow10(d)
  {
    if n >= 10 && d > 1 {
      FormatNatLength(n / 10, d - 1);
      assert n / 10 < Pow10(d - 1) <==> n < 10 * Pow10(d - 1);
    }
  }

  /**
   * `int(str(i)) == i`: the decimal form of every integer within the digit
   * limit parses back to it.
   */
  lemma ParseFormat(i: int)
    requires |FormatNat(if i < 0 then -i else i)| <= MaxStrDigits
    ensures ParseInt(FormatInt(i)) == Some(i)
  {
    if i < 0 {
      var m: nat := -i;
      var digits := FormatNat(m);
      FormatNatIsDigitRun(m);
      var s := "-" + digits;
      assert FormatInt(i) == s;
      assert s[0] == '-' && s[1..] == digits;
    } else {
      FormatNatIsDigitRun(i);
      assert IsDigit(FormatInt(i)[0]);
    }
  }

  /** Counting digits from the front gives the same count. */
  lemma {:induction false} DigitCountFront(s: string)
    requires |s| > 0
    ensures DigitCount(s) == (if IsDigit(s[0]) then 1 else 0) + DigitCount(s[1..])
  {
    if |s| > 1 {
      DigitCountFront(s[..|s| - 1]);
      assert s[..|s| - 1][1..] == s[1..][..|s| - 2];
    }
  }

  /** A string with more digits than the limit is never converted, whatever its sign. */
  lemma ParseIntRejectsLong(s: string)
    requires DigitCount(s) > MaxStrDigits
    ensures ParseInt(s) == None
  {
    if |s| > 0 && (s[0] == '-' || s[0] == '+') {
      DigitCountFront(s);
    }
  }

  /** A string that holds no decimal digit is never an integer. */
  lemma ParseIntNeedsDigit(s: string)
    requires forall k | 0 <= k < |s| :: !IsDigit(s[k])
    ensures ParseInt(s) == None
  {
  }
}
