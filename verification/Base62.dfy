/** Base-62 conversion of big-endian byte strings, done in place (ksuid/src/base62.rs). */
module Base62 {
  import opened Bytes
  import opened Positional

  /** CHAR_MAP: the digits, then the upper-case letters, then the lower-case letters. */
  function CharOf(d: nat): (c: byte)
    requires d < 62
    ensures c < 128
  {
    if d < 10 then 48 + d else if d < 36 then 65 + (d - 10) else 97 + (d - 36)
  }

  /** BYTE_MAP: the digit a 7-bit character stands for, or -1. */
  function BinOf(c: byte): (d: int)
    requires c < 128
    ensures -1 <= d < 62
    ensures d >= 0 ==> CharOf(d) == c
  {
    if 48 <= c <= 57 then c - 48
    else if 65 <= c <= 90 then c - 65 + 10
    else if 97 <= c <= 122 then c - 97 + 36
    else -1
  }

  /**
   * When the output buffer is large enough. The division loop writes one digit for every non-empty
   * number, even for zero, so an empty buffer serves the empty number only.
   */
  ghost predicate Fits(num: seq<nat>, inBase: nat, outBase: nat, len: nat)
  {
    num == [] || (len > 0 && Value(num, inBase) < Pow(outBase, len))
  }

  lemma QuotientStep(q: nat, rem: nat, d: nat, inBase: nat, outBase: nat)
    requires outBase > 0
    ensures (q * inBase + (d + inBase * rem) / outBase) * outBase + (d + inBase * rem) % outBase
         == (q * outBase + rem) * inBase + d
  {
    var acc := d + inBase * rem;
    var div := acc / outBase;
    assert div * outBase + acc % outBase == acc;
    calc {
      (q * inBase + div) * outBase + acc % outBase;
      (q * inBase) * outBase + div * outBase + acc % outBase;
      (q * inBase) * outBase + acc;
      { assert (q * inBase) * outBase == (q * outBase) * inBase; }
      (q * outBase) * inBase + inBase * rem + d;
      (q * outBase + rem) * inBase + d;
    }
  }

  lemma QuotientDigit(d: nat, rem: nat, inBase: nat, outBase: nat)
    requires d < inBase && rem < outBase
    ensures (d + inBase * rem) / outBase < inBase
  {
    var acc := d + inBase * rem;
    BoundStep(rem, d, outBase, inBase);
    assert acc < inBase * outBase;
    if acc / outBase >= inBase {
      MulMono(inBase, acc / outBase, outBase);
      assert false;
    }
  }

  /** `digits` divided by `outBase` is `quotient`, written without leading zeros, remainder `rem`. */
  ghost predicate Divided(quotient: seq<nat>, rem: nat, digits: seq<nat>, inBase: nat, outBase: nat)
  {
    && rem < outBase && DigitsOf(quotient, inBase)
    && (quotient != [] ==> quotient[0] != 0)
    && Value(quotient, inBase) * outBase + rem == Value(digits, inBase)
  }

  /** One more digit: its quotient digit is appended unless it would be a leading zero. */
  lemma DividedStep(
    quotient: seq<nat>, rem: nat, digits: seq<nat>, d: nat, div: nat, rem': nat, inBase: nat, outBase: nat)
    requires Divided(quotient, rem, digits, inBase, outBase) && div < inBase && rem' < outBase
    requires var q := Value(quotient, inBase);
             (q * inBase + div) * outBase + rem' == (q * outBase + rem) * inBase + d
    ensures quotient != [] || div != 0 ==> Divided(quotient + [div], rem', digits + [d], inBase, outBase)
    ensures quotient == [] && div == 0 ==> Divided(quotient, rem', digits + [d], inBase, outBase)
  {
    ValueSnoc(digits, d, inBase);
    ValueSnoc(quotient, div, inBase);
  }

  /** The running remainder and the next digit, divided. */
  method DivideDigit(d: nat, rem: nat, inBase: nat, outBase: nat, ghost q: nat) returns (div: nat, rem': nat)
    requires d < inBase && rem < outBase
    ensures div < inBase && rem' < outBase
    ensures div * outBase + rem' == d + inBase * rem
    ensures (q * inBase + div) * outBase + rem' == (q * outBase + rem) * inBase + d
  {
    var acc := d + inBase * rem;
    div, rem' := acc / outBase, acc % outBase;
    QuotientDigit(d, rem, inBase, outBase);
    QuotientStep(q, rem, d, inBase, outBase);
  }

  /** One step of the long division, as it extends the number divided so far. */
  method DivideNext(
    d: nat, rem: nat, inBase: nat, outBase: nat, ghost quotient: seq<nat>, ghost digits: seq<nat>)
    returns (div: nat, rem': nat)
    requires d < inBase && Divided(quotient, rem, digits, inBase, outBase)
    ensures div < inBase
    ensures quotient != [] || div != 0 ==> Divided(quotient + [div], rem', digits + [d], inBase, outBase)
    ensures quotient == [] && div == 0 ==> Divided(quotient, rem', digits + [d], inBase, outBase)
  {
    div, rem' := DivideDigit(d, rem, inBase, outBase, Value(quotient, inBase));
    DividedStep(quotient, rem, digits, d, div, rem', inBase, outBase);
  }

  /**
   * One pass of the long division over `num[..n]`. The quotient overwrites the front of the same
   * buffer without its leading zeros; the digits still to be read are never touched.
   */
  method DivideInPlace(num: array<byte>, n: nat, inBase: nat, outBase: nat) returns (i: nat, rem: nat)
    requires n <= num.Length
    requires 2 <= inBase <= 256 && 2 <= outBase <= 256
    requires DigitsOf(num[..n], inBase)
    modifies num
    ensures i <= n && Divided(num[..i], rem, old(num[..n]), inBase, outBase)
    ensures num[n..] == old(num[n..])
  {
    i, rem := 0, 0;
    ghost var quotient: seq<nat> := [];
    ghost var digits: seq<nat> := [];
    for j := 0 to n
      invariant i <= j && num[j..] == old(num[j..])
      invariant digits == old(num[..j]) && quotient == num[..i]
      invariant Divided(quotient, rem, digits, inBase, outBase)
    {
      var d := num[j];
      assert d == num[j..][0] == old(num[..n])[j];
      var div;
      div, rem := DivideNext(d, rem, inBase, outBase, quotient, digits);
      if i != 0 || div != 0 {
        num[i] := div;
        i := i + 1;
        quotient := quotient + [div];
      }
      digits := digits + [d];
      assert num[j + 1..] == old(num[j + 1..]);
    }
  }

  lemma LeadingDigitCounts(digits: seq<nat>, base: nat)
    requires digits != [] && digits[0] > 0 && base > 0
    ensures Value(digits, base) > 0
  {
    assert digits == [digits[0]] + digits[1..];
    ValueCons(digits[0], digits[1..], base);
    MulMono(1, digits[0], Pow(base, |digits| - 1));
  }

  /** `total` is still to be found as `high` in the old base above `low` in the new one. */
  ghost predicate Converting(total: nat, high: seq<nat>, low: seq<nat>, inBase: nat, outBase: nat)
  {
    && DigitsOf(high, inBase) && DigitsOf(low, outBase)
    && total == Value(high, inBase) * Pow(outBase, |low|) + Value(low, outBase)
  }

  lemma WriteDigit(v: nat, v': nat, rem: nat, p: nat, low: nat, base: nat)
    requires v == v' * base + rem
    ensures v * p + low == v' * (base * p) + (rem * p + low)
  {
    Distribute(v', base, rem, p);
    assert base * p == p * base;
  }

  lemma ConvertingStep(
    total: nat, high: seq<nat>, low: seq<nat>, quotient: seq<nat>, rem: nat, inBase: nat, outBase: nat)
    requires Converting(total, high, low, inBase, outBase) && Divided(quotient, rem, high, inBase, outBase)
    ensures Converting(total, quotient, [rem] + low, inBase, outBase)
  {
    ValueCons(rem, low, outBase);
    WriteDigit(Value(high, inBase), Value(quotient, inBase), rem, Pow(outBase, |low|), Value(low, outBase), outBase);
  }

  /** Each pass makes the number smaller, or ends it if it was zero. */
  lemma QuotientShrinks(quotient: seq<nat>, rem: nat, high: seq<nat>, inBase: nat, outBase: nat)
    requires Divided(quotient, rem, high, inBase, outBase) && outBase >= 2 && inBase >= 2 && high != []
    ensures Value(quotient, inBase) < Value(high, inBase)
            || (Value(quotient, inBase) == Value(high, inBase) && quotient == [])
  {
    var q := Value(quotient, inBase);
    MulMono(2, outBase, q);
    assert q * outBase == outBase * q;
    if quotient != [] {
      LeadingDigitCounts(quotient, inBase);
    }
  }

  lemma TooLarge(total: nat, high: seq<nat>, low: seq<nat>, inBase: nat, outBase: nat)
    requires Converting(total, high, low, inBase, outBase) && inBase > 0 && high != [] && high[0] != 0
    ensures total >= Pow(outBase, |low|)
  {
    LeadingDigitCounts(high, inBase);
    MulMono(1, Value(high, inBase), Pow(outBase, |low|));
  }

  lemma Converted(total: nat, low: seq<nat>, zeros: seq<nat>, inBase: nat, outBase: nat)
    requires Converting(total, [], low, inBase, outBase) && outBase > 0
    requires forall i :: 0 <= i < |zeros| ==> zeros[i] == 0
    ensures DigitsOf(zeros + low, outBase) && Value(zeros + low, outBase) == total
    ensures total < Pow(outBase, |zeros + low|)
  {
    LeadingZeros(zeros, low, outBase);
    ValueBound(zeros + low, outBase);
  }

  /**
   * Rewrites the number in `num` from base `inBase` to base `outBase`, right-aligned in `out`.
   * `ok` is false where the source panics with "Output buffer not large enough"; `num` is clobbered.
   */
  method ChangeBase(num: array<byte>, out: array<byte>, inBase: nat, outBase: nat) returns (ok: bool)
    requires num != out
    requires 2 <= inBase <= 256 && 2 <= outBase <= 256
    requires DigitsOf(num[..], inBase)
    requires forall i :: 0 <= i < out.Length ==> out[i] == 0
    modifies num, out
    ensures ok <==> Fits(old(num[..]), inBase, outBase, out.Length)
    ensures ok ==> DigitsOf(out[..], outBase)
    ensures ok ==> Value(out[..], outBase) == Value(old(num[..]), inBase)
  {
    var k, n := out.Length, num.Length;
    ghost var original: seq<nat> := num[..];
    ghost var total := Value(original, inBase);
    ghost var high, low: seq<nat> := original, [];
    while n != 0
      invariant 0 <= n <= num.Length && 0 <= k <= out.Length
      invariant high == num[..n] && low == out[k..]
      invariant forall i :: 0 <= i < k ==> out[i] == 0
      invariant Converting(total, high, low, inBase, outBase)
      invariant if k == out.Length then high == original else original != [] && (n > 0 ==> high[0] != 0)
      decreases Value(high, inBase), n
    {
      if k == 0 {
        if out.Length > 0 {
          TooLarge(total, high, low, inBase, outBase);
        }
        return false;
      }
      ghost var before := out[..];
      var i, rem := DivideInPlace(num, n, inBase, outBase);
      assert out[..] == before;
      ghost var quotient: seq<nat> := num[..i];
      ConvertingStep(total, high, low, quotient, rem, inBase, outBase);
      QuotientShrinks(quotient, rem, high, inBase, outBase);
      k := k - 1;
      out[k] := rem;
      high, low := quotient, [rem] + low;
      n := i;
    }
    Converted(total, low, out[..k], inBase, outBase);
    assert out[..] == out[..k] + low;
    return true;
  }
}
