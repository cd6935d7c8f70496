/** Decimal spelling of natural numbers: what `to_string` prints, as digit values. */
module Decimal {

  type digit = d: int | 0 <= d < 10

  function Digits(n: nat): (ds: seq<digit>)
    ensures |ds| > 0
  {
    if n < 10 then [n] else Digits(n / 10) + [n % 10]
  }

  function Value(ds: seq<digit>): nat {
    if ds == [] then 0 else Value(ds[..|ds| - 1]) * 10 + ds[|ds| - 1]
  }

  /** No sign, no leading zero: the one spelling `to_string` produces. */
  predicate Canonical(ds: seq<digit>) {
    |ds| > 0 && (|ds| > 1 ==> ds[0] != 0)
  }

  lemma {:induction false} ValueOfDigits(n: nat)
    ensures Value(Digits(n)) == n && Canonical(Digits(n)) && (n > 0 ==> Digits(n)[0] != 0)
  {
    if n < 10 {
      assert [n][..0] == [];
    } else {
      ValueOfDigits(n / 10);
      assert Digits(n)[..|Digits(n)| - 1] == Digits(n / 10);
    }
  }

  lemma DigitsInjective(m: nat, n: nat)
    requires Digits(m) == Digits(n)
    ensures m == n
  {
    ValueOfDigits(m);
    ValueOfDigits(n);
  }

  function Char(d: digit): (c: char)
    ensures '0' <= c <= '9'
  {
    '0' + d as char
  }

  /** Digits in some spelling. */
  function Spell<T>(ds: seq<digit>, glyph: digit -> T): (s: seq<T>)
    ensures |s| == |ds|
    ensures forall i :: 0 <= i < |s| ==> s[i] == glyph(ds[i])
  {
    seq(|ds|, i requires 0 <= i < |ds| => glyph(ds[i]))
  }

  /** The number as text. */
  function Text(n: nat): (s: string)
    ensures |s| == |Digits(n)|
    ensures forall i :: 0 <= i < |s| ==> '0' <= s[i] <= '9'
  {
    Spell(Digits(n), Char)
  }

  lemma TextInjective(m: nat, n: nat)
    requires Text(m) == Text(n)
    ensures m == n
  {
    var a, b := Digits(m), Digits(n);
    forall i | 0 <= i < |a| ensures a[i] == b[i] {
      assert Text(m)[i] == Char(a[i]) && Text(n)[i] == Char(b[i]);
    }
    assert a == b;
    DigitsInjective(m, n);
  }
}
