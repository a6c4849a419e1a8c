/** Numbers written in digits to some base, the most significant digit first. */
module Positional {

  function Power(b: nat, k: nat): (p: nat)
    requires b > 0
    ensures p > 0
  {
    if k == 0 then 1 else Power(b, k - 1) * b
  }

  predicate AllBelow(digits: seq<int>, base: nat) {
    forall i :: 0 <= i < |digits| ==> 0 <= digits[i] < base
  }

  /** The number that the digits spell. */
  function Number(digits: seq<int>, base: nat): (n: nat)
    requires AllBelow(digits, base)
  {
    if digits == [] then 0 else Number(digits[..|digits| - 1], base) * base + digits[|digits| - 1]
  }

  lemma NumberAppend(digits: seq<int>, d: nat, base: nat)
    requires AllBelow(digits, base) && d < base
    ensures AllBelow(digits + [d], base) && Number(digits + [d], base) == Number(digits, base) * base + d
  {
    assert (digits + [d])[..|digits|] == digits;
  }

  lemma NumberOne(d: nat, base: nat)
    requires d < base
    ensures Number([d], base) == d
  {
    assert [d][..0] == [];
    assert Number([], base) == 0;
  }

  lemma ShiftDistributes(a: nat, p: nat, b: nat, base: nat)
    ensures (a * p + b) * base == a * (p * base) + b * base
  {
  }

  lemma {:induction false} NumberConcat(a: seq<int>, b: seq<int>, base: nat)
    requires base > 0 && AllBelow(a, base) && AllBelow(b, base)
    ensures AllBelow(a + b, base)
    ensures Number(a + b, base) == Number(a, base) * Power(base, |b|) + Number(b, base)
  {
    if b == [] {
      assert a + b == a;
    } else {
      var n := |b| - 1;
      NumberConcat(a, b[..n], base);
      assert (a + b)[..|a + b| - 1] == a + b[..n];
      ShiftDistributes(Number(a, base), Power(base, n), Number(b[..n], base), base);
    }
  }

  lemma {:induction false} NextMultiple(a: nat, b: nat, base: nat)
    requires a < b
    ensures a * base + base <= b * base
  {
    if a + 1 < b {
      NextMultiple(a, b - 1, base);
    }
    assert b * base == (b - 1) * base + base;
  }

  lemma LastDigit(a: nat, b: nat, c: nat, d: nat, base: nat)
    requires c < base && d < base && a * base + c == b * base + d
    ensures a == b && c == d
  {
    if a < b {
      NextMultiple(a, b, base);
    } else if b < a {
      NextMultiple(b, a, base);
    }
  }

  /** As many digits that spell the same number are the same digits. */
  lemma {:induction false} NumberInjective(a: seq<int>, b: seq<int>, base: nat)
    requires AllBelow(a, base) && AllBelow(b, base)
    requires |a| == |b| && Number(a, base) == Number(b, base)
    ensures a == b
  {
    if a != [] {
      var n := |a| - 1;
      LastDigit(Number(a[..n], base), Number(b[..n], base), a[n], b[n], base);
      NumberInjective(a[..n], b[..n], base);
      assert a == a[..n] + [a[n]] && b == b[..n] + [b[n]];
    }
  }
}
