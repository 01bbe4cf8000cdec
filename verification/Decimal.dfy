/** Decimal numerals as ASCII bytes. */
module Decimal {
  import opened Bytes
  import opened Positional

  predicate IsDigit(b: byte)
  {
    48 <= b <= 57
  }

  predicate AllDigits(s: seq<byte>)
  {
    forall i :: 0 <= i < |s| ==> IsDigit(s[i])
  }

  function DigitValues(s: seq<byte>): (ds: seq<nat>)
    requires AllDigits(s)
    ensures |ds| == |s| && DigitsOf(ds, 10)
    ensures forall i :: 0 <= i < |s| ==> ds[i] == s[i] - 48
  {
    seq(|s|, i requires 0 <= i < |s| => s[i] - 48)
  }

  /** The number a digit string denotes; leading zeros and the empty string are allowed here. */
  function NumeralValue(s: seq<byte>): nat
    requires AllDigits(s)
  {
    Value(DigitValues(s), 10)
  }

  /** `{}` formatting of a non-negative integer. */
  function Show(n: nat): (s: seq<byte>)
    ensures |s| > 0 && AllDigits(s)
  {
    if n < 10 then [48 + n] else Show(n / 10) + [48 + n % 10]
  }

  lemma NumeralSnoc(s: seq<byte>, b: byte)
    requires AllDigits(s) && IsDigit(b)
    ensures AllDigits(s + [b])
    ensures NumeralValue(s + [b]) == NumeralValue(s) * 10 + (b - 48)
  {
    assert DigitValues(s + [b]) == DigitValues(s) + [b - 48];
    ValueSnoc(DigitValues(s), b - 48, 10);
  }

  lemma {:induction false} ShowValue(n: nat)
    ensures NumeralValue(Show(n)) == n
  {
    if n < 10 {
      assert Show(n) == [] + [48 + n];
      NumeralSnoc([], 48 + n);
    } else {
      ShowValue(n / 10);
      NumeralSnoc(Show(n / 10), 48 + n % 10);
    }
  }

  /** No leading zero, except for the numeral "0" itself. */
  predicate Canonical(s: seq<byte>)
  {
    |s| > 0 && AllDigits(s) && (|s| > 1 ==> s[0] != 48)
  }

  lemma {:induction false} ShowIsCanonical(n: nat)
    ensures Canonical(Show(n)) && (n > 0 ==> Show(n)[0] != 48)
  {
    if n >= 10 {
      ShowIsCanonical(n / 10);
    }
  }

  lemma LeadingDigit(s: seq<byte>)
    requires |s| > 0 && AllDigits(s) && s[0] != 48
    ensures NumeralValue(s) > 0
  {
    var ds := DigitValues(s);
    assert ds == [ds[0]] + ds[1..];
    ValueCons(ds[0], ds[1..], 10);
    MulMono(1, ds[0], Pow(10, |ds| - 1));
  }

  /** A canonical numeral is the one `Show` writes. */
  lemma {:induction false} CanonicalIsShow(s: seq<byte>)
    requires Canonical(s)
    ensures s == Show(NumeralValue(s))
    decreases |s|
  {
    var init, last := s[..|s| - 1], s[|s| - 1];
    assert s == init + [last];
    NumeralSnoc(init, last);
    if |s| > 1 {
      CanonicalIsShow(init);
      LeadingDigit(init);
    } else {
      assert init == [];
    }
  }

  /** A number below 10^k has at most k digits. */
  lemma {:induction false} ShowLength(n: nat, k: nat)
    requires k > 0 && n < Pow(10, k)
    ensures |Show(n)| <= k
    decreases k
  {
    if n >= 10 {
      assert Pow(10, 1) == 10;
      ShowLength(n / 10, k - 1);
    }
  }
}
