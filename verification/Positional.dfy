/** Numbers written as big-endian digit strings in an arbitrary base. */
module Positional {
  import opened Bytes

  function Pow(base: nat, n: nat): (p: nat)
    ensures base > 0 ==> p > 0
  {
    if n == 0 then 1 else base * Pow(base, n - 1)
  }

  /** The integer that `digits` denotes in `base`, most significant digit first. */
  function Value(digits: seq<nat>, base: nat): (v: nat)
  {
    if digits == [] then 0
    else Value(digits[..|digits| - 1], base) * base + digits[|digits| - 1]
  }

  predicate DigitsOf(digits: seq<nat>, base: nat)
  {
    forall i :: 0 <= i < |digits| ==> digits[i] < base
  }

  lemma ValueSnoc(digits: seq<nat>, d: nat, base: nat)
    ensures Value(digits + [d], base) == Value(digits, base) * base + d
  {
    assert (digits + [d])[..|digits|] == digits;
  }

  lemma ValuePrefix(digits: seq<nat>, i: nat, base: nat)
    requires i < |digits|
    ensures Value(digits[..i + 1], base) == Value(digits[..i], base) * base + digits[i]
  {
    assert digits[..i + 1] == digits[..i] + [digits[i]];
    ValueSnoc(digits[..i], digits[i], base);
  }

  lemma MulAssoc(a: int, b: int, c: int)
    ensures a * b * c == a * (b * c)
  {
  }

  lemma {:induction false} PowSum(base: nat, m: nat, n: nat)
    ensures Pow(base, m + n) == Pow(base, m) * Pow(base, n)
    decreases m
  {
    if m > 0 {
      PowSum(base, m - 1, n);
      MulAssoc(base, Pow(base, m - 1), Pow(base, n));
    }
  }

  lemma Distribute(d: nat, p: nat, v: nat, base: nat)
    ensures (d * p + v) * base == d * (base * p) + v * base
  {
  }

  /** A leading digit weighs a power of the base. */
  lemma {:induction false} ValueCons(d: nat, digits: seq<nat>, base: nat)
    ensures Value([d] + digits, base) == d * Pow(base, |digits|) + Value(digits, base)
    decreases |digits|
  {
    if digits == [] {
      assert [d] + digits == [] + [d];
      ValueSnoc([], d, base);
    } else {
      var init, last := digits[..|digits| - 1], digits[|digits| - 1];
      ValueCons(d, init, base);
      assert [d] + digits == ([d] + init) + [last];
      ValueSnoc([d] + init, last, base);
      var p := Pow(base, |init|);
      calc {
        Value([d] + digits, base);
        (d * p + Value(init, base)) * base + last;
        { Distribute(d, p, Value(init, base), base); }
        d * (base * p) + (Value(init, base) * base + last);
        d * Pow(base, |digits|) + Value(digits, base);
      }
    }
  }

  lemma MulMono(a: nat, b: nat, c: nat)
    requires a <= b
    ensures a * c <= b * c
  {
  }

  lemma BoundStep(v: nat, last: nat, p: nat, base: nat)
    requires v < p && last < base
    ensures v * base + last < base * p
  {
    MulMono(v + 1, p, base);
    assert (v + 1) * base == v * base + base;
  }

  lemma {:induction false} ValueBound(digits: seq<nat>, base: nat)
    requires DigitsOf(digits, base)
    ensures Value(digits, base) < Pow(base, |digits|)
  {
    if digits != [] {
      var init := digits[..|digits| - 1];
      ValueBound(init, base);
      BoundStep(Value(init, base), digits[|digits| - 1], Pow(base, |init|), base);
    }
  }

  lemma {:induction false} LeadingZeros(zeros: seq<nat>, digits: seq<nat>, base: nat)
    requires forall i :: 0 <= i < |zeros| ==> zeros[i] == 0
    ensures Value(zeros + digits, base) == Value(digits, base)
    decreases |zeros|
  {
    if zeros == [] {
      assert zeros + digits == digits;
    } else {
      LeadingZeros(zeros[1..], digits, base);
      assert zeros + digits == [0] + (zeros[1..] + digits);
      ValueCons(0, zeros[1..] + digits, base);
    }
  }

  lemma HeadDecides(x: nat, y: nat, u: nat, v: nat, p: nat)
    requires u < p && v < p
    ensures x * p + u < y * p + v <==> x < y || (x == y && u < v)
    ensures x * p + u == y * p + v <==> x == y && u == v
  {
    if x < y {
      MulMono(x + 1, y, p);
      assert (x + 1) * p == x * p + p;
    } else if y < x {
      MulMono(y + 1, x, p);
      assert (y + 1) * p == y * p + p;
    }
  }

  /** On digit strings of one length, numeric order is lexicographic order. */
  lemma {:induction false} ValueOrder(a: seq<nat>, b: seq<nat>, base: nat)
    requires |a| == |b| && DigitsOf(a, base) && DigitsOf(b, base)
    ensures LexLess(a, b) <==> Value(a, base) < Value(b, base)
    ensures a == b <==> Value(a, base) == Value(b, base)
    decreases |a|
  {
    if a != [] {
      var ta, tb := a[1..], b[1..];
      ValueOrder(ta, tb, base);
      assert a == [a[0]] + ta && b == [b[0]] + tb;
      ValueCons(a[0], ta, base);
      ValueCons(b[0], tb, base);
      ValueBound(ta, base);
      ValueBound(tb, base);
      HeadDecides(a[0], b[0], Value(ta, base), Value(tb, base), Pow(base, |ta|));
    }
  }
}
