/** Decimal notation as Go's %d prints it. */
module Decimal {
  import opened Positional

  predicate IsDigit(c: char) {
    '0' <= c <= '9'
  }

  predicate AllDigits(s: string) {
    forall i :: 0 <= i < |s| ==> IsDigit(s[i])
  }

  function Digit(d: nat): (c: char)
    requires d < 10
    ensures IsDigit(c) && c as int - '0' as int == d
  {
    ('0' as int + d) as char
  }

  function Show(n: nat): (s: string)
    ensures s != "" && AllDigits(s)
  {
    if n < 10 then [Digit(n)] else Show(n / 10) + [Digit(n % 10)]
  }

  function ShowInt(n: int): string {
    if n < 0 then "-" + Show(-n) else Show(n)
  }

  /** The number a string of digits denotes. */
  function Value(s: string): nat
    requires AllDigits(s)
  {
    if s == "" then 0 else 10 * Value(s[..|s| - 1]) + (s[|s| - 1] as int - '0' as int)
  }

  lemma {:induction false} ShowValue(n: nat)
    ensures Value(Show(n)) == n
  {
    if n >= 10 {
      ShowValue(n / 10);
      assert Show(n)[..|Show(n)| - 1] == Show(n / 10);
    } else {
      assert Show(n)[..0] == "";
    }
  }

  /** Places are read from the left: what comes first weighs more. */
  lemma {:induction false} ValueConcat(s: string, t: string)
    requires AllDigits(s) && AllDigits(t)
    ensures AllDigits(s + t) && Value(s + t) == Value(s) * Power(10, |t|) + Value(t)
    ensures |t| == 1 ==> Value(t) == t[0] as int - '0' as int
  {
    if t == "" {
      assert s + t == s;
    } else {
      var n := |t| - 1;
      ValueConcat(s, t[..n]);
      assert (s + t)[..|s + t| - 1] == s + t[..n];
      ShiftDistributes(Value(s), Power(10, n), Value(t[..n]), 10);
    }
  }

  lemma {:induction false} NoLeadingZero(n: nat)
    ensures n > 0 ==> Show(n)[0] != '0'
    ensures n == 0 ==> Show(n) == "0"
  {
    if n >= 10 {
      NoLeadingZero(n / 10);
    }
  }

  /** %d prints an optional minus sign and the digits of the absolute value, without leading zeros. */
  lemma ShowIntReads(n: int)
    ensures var s := ShowInt(n);
            var digits := if n < 0 && s != "" then s[1..] else s;
            && (n < 0 ==> s != "" && s[0] == '-') && digits != "" && AllDigits(digits)
            && Value(digits) == (if n < 0 then -n else n)
            && (digits[0] == '0' ==> digits == "0")
  {
    var m := if n < 0 then -n else n;
    ShowValue(m);
    NoLeadingZero(m);
    if n < 0 {
      assert ShowInt(n)[1..] == Show(m);
    }
  }

  lemma ShowInjective(m: nat, n: nat)
    requires Show(m) == Show(n)
    ensures m == n
  {
    ShowValue(m);
    ShowValue(n);
  }

  lemma ShowIntSign(n: int)
    ensures ShowInt(n) != "" && (ShowInt(n)[0] == '-' <==> n < 0)
    ensures n < 0 ==> ShowInt(n)[1..] == Show(-n)
  {
    if n >= 0 {
      assert IsDigit(Show(n)[0]);
    }
  }

  lemma ShowIntInjective(m: int, n: int)
    requires ShowInt(m) == ShowInt(n)
    ensures m == n
  {
    ShowIntSign(m);
    ShowIntSign(n);
    ShowInjective(if m < 0 then -m else m, if n < 0 then -n else n);
  }
}
