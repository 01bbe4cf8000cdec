/** KSUIDs: 20-byte identifiers, their 27-character text form and the order both share (ksuid/src/lib.rs). */
module Ksuid {
  import opened Bytes
  import opened Positional
  import opened Words
  import opened Base62

  const LEN: nat := 20
  const BASE62_LEN: nat := 27

  /** The text "aWgEPTl1tmebfsQzFP4bxwgy80V". */
  const MAX_BASE62_KSUID: seq<byte> :=
    [97, 87, 103, 69, 80, 84, 108, 49, 116, 109, 101, 98, 102, 115,
     81, 122, 70, 80, 52, 98, 120, 119, 103, 121, 56, 48, 86]

  datatype Result<+T> = Ok(value: T) | InvalidData

  type Id = s: seq<byte> | |s| == LEN witness [0, 0, 0, 0, 0, 0, 0, 0, 0, 0, 0, 0, 0, 0, 0, 0, 0, 0, 0, 0]

  predicate IsBase62Char(c: byte)
  {
    c < 128 && BinOf(c) >= 0
  }

  predicate IsBase62(text: seq<byte>)
  {
    forall i :: 0 <= i < |text| ==> IsBase62Char(text[i])
  }

  function Digits(text: seq<byte>): (ds: seq<byte>)
    requires IsBase62(text)
    ensures |ds| == |text| && DigitsOf(ds, 62)
    ensures forall i :: 0 <= i < |ds| ==> ds[i] == BinOf(text[i])
  {
    seq(|text|, i requires 0 <= i < |text| => assert IsBase62Char(text[i]); BinOf(text[i]) as byte)
  }

  function TextValue(text: seq<byte>): nat
    requires IsBase62(text)
  {
    Value(Digits(text), 62)
  }

  /** `text` is the text form of `id`: 27 base-62 characters for the same 160-bit number. */
  ghost predicate Denotes(text: seq<byte>, id: Id)
  {
    |text| == BASE62_LEN && IsBase62(text) && TextValue(text) == Value(id, 256)
  }

  // ---- The constants

  /** 2^160, the number of identifiers. */
  const ID_SPACE: nat := 0x1_0000_0000_0000_0000_0000_0000_0000_0000_0000_0000

  lemma IdSpaceIsPow()
    ensures Pow(256, LEN) == ID_SPACE
  {
    assert Pow(256, 5) == 0x100_0000_0000;
    PowSum(256, 5, 5);
    PowSum(256, 10, 10);
  }

  lemma IdRange(id: Id)
    ensures Value(id, 256) < ID_SPACE
  {
    ValueBound(id, 256);
    IdSpaceIsPow();
  }

  /** 27 base-62 digits are enough for 160 bits. */
  lemma DigitsSuffice()
    ensures Pow(62, BASE62_LEN) > ID_SPACE
  {
    assert Pow(62, 9) == 13537086546263552;
    PowSum(62, 9, 9);
    PowSum(62, 18, 9);
  }

  lemma ThreeDigits(ds: seq<nat>, i: nat)
    requires i + 3 <= |ds|
    ensures Value(ds[..i + 3], 62) == Value(ds[..i], 62) * 238328 + ds[i] * 3844 + ds[i + 1] * 62 + ds[i + 2]
  {
    ValuePrefix(ds, i, 62);
    ValuePrefix(ds, i + 1, 62);
    ValuePrefix(ds, i + 2, 62);
  }

  /** Nine digits read as three groups of three. */
  lemma NineDigits(ds: seq<nat>, i: nat, a: nat, b: nat, c: nat)
    requires i + 9 <= |ds|
    requires a == ds[i] * 3844 + ds[i + 1] * 62 + ds[i + 2]
    requires b == ds[i + 3] * 3844 + ds[i + 4] * 62 + ds[i + 5]
    requires c == ds[i + 6] * 3844 + ds[i + 7] * 62 + ds[i + 8]
    ensures Value(ds[..i + 9], 62)
         == Value(ds[..i], 62) * 13537086546263552 + a * 56800235584 + b * 238328 + c
  {
    ThreeDigits(ds, i);
    ThreeDigits(ds, i + 3);
    ThreeDigits(ds, i + 6);
  }

  const MAX_DIGITS: seq<nat> :=
    [36, 32, 42, 14, 25, 29, 47, 1, 55, 48, 40, 37, 41, 54, 26, 61, 15, 25, 4, 37, 59, 58, 42, 60, 8, 0, 31]

  lemma MaxFirstNine(ds: seq<nat>)
    requires ds == MAX_DIGITS
    ensures Value(ds[..9], 62) == 7975334280709785
  {
    NineDigits(ds, 0, 140410, 55395, 180785);
    assert ds[..0] == [];
  }

  lemma MaxFirstEighteen(ds: seq<nat>)
    requires ds == MAX_DIGITS
    ensures Value(ds[..18], 62) == 107962790393350943777731862096479
  {
    MaxFirstNine(ds);
    NineDigits(ds, 9, 187029, 160978, 235439);
  }

  lemma MaxDigitsValue(ds: seq<nat>)
    requires ds == MAX_DIGITS
    ensures Value(ds, 62) == ID_SPACE - 1
  {
    MaxFirstEighteen(ds);
    NineDigits(ds, 18, 17729, 225616, 30783);
    assert ds[..27] == ds;
  }

  lemma MaxIsBase62()
    ensures IsBase62(MAX_BASE62_KSUID)
  {
    forall i | 0 <= i < |MAX_BASE62_KSUID|
      ensures IsBase62Char(MAX_BASE62_KSUID[i])
    {
    }
  }

  /** MAX_BASE62_KSUID is the text of 2^160 - 1. */
  lemma MaxIsAllOnes()
    ensures IsBase62(MAX_BASE62_KSUID)
    ensures TextValue(MAX_BASE62_KSUID) == ID_SPACE - 1
  {
    MaxIsBase62();
    MaxDigitsValue(Digits(MAX_BASE62_KSUID));
  }

  // ---- Text order is numeric order

  lemma CharOrder(c: byte, d: byte)
    requires IsBase62Char(c) && IsBase62Char(d)
    ensures c < d <==> BinOf(c) < BinOf(d)
    ensures c == d <==> BinOf(c) == BinOf(d)
  {
  }

  lemma DigitsCons(t: seq<byte>)
    requires t != [] && IsBase62(t)
    ensures IsBase62(t[1..])
    ensures Digits(t) == [BinOf(t[0])] + Digits(t[1..])
    ensures Digits(t)[0] == BinOf(t[0]) && Digits(t)[1..] == Digits(t[1..])
  {
    assert forall i :: 0 <= i < |t| - 1 ==> IsBase62Char(t[1..][i]) && Digits(t[1..])[i] == Digits(t)[i + 1];
  }

  lemma {:induction false} DigitOrder(t: seq<byte>, u: seq<byte>)
    requires IsBase62(t) && IsBase62(u)
    ensures LexLess(t, u) <==> LexLess(Digits(t), Digits(u))
    decreases |t|
  {
    if t != [] && u != [] {
      CharOrder(t[0], u[0]);
      DigitsCons(t);
      DigitsCons(u);
      DigitOrder(t[1..], u[1..]);
    }
  }

  lemma DigitsOneToOne(t: seq<byte>, u: seq<byte>)
    requires IsBase62(t) && IsBase62(u) && Digits(t) == Digits(u)
    ensures t == u
  {
    forall i | 0 <= i < |t|
      ensures t[i] == u[i]
    {
      assert Digits(t)[i] == Digits(u)[i];
      CharOrder(t[i], u[i]);
    }
  }

  lemma TextOrder(t: seq<byte>, u: seq<byte>)
    requires |t| == |u| && IsBase62(t) && IsBase62(u)
    ensures LexLess(t, u) <==> TextValue(t) < TextValue(u)
    ensures t == u <==> TextValue(t) == TextValue(u)
  {
    DigitOrder(t, u);
    ValueOrder(Digits(t), Digits(u), 62);
    if Digits(t) == Digits(u) {
      DigitsOneToOne(t, u);
    }
  }

  lemma GuardFor(text: seq<byte>, max: seq<byte>)
    requires |text| == |max| && IsBase62(text) && IsBase62(max)
    requires TextValue(max) == ID_SPACE - 1
    ensures LexLess(max, text) <==> TextValue(text) >= ID_SPACE
  {
    TextOrder(max, text);
  }

  /** The length and MAX_BASE62_KSUID guards admit exactly the texts of 160-bit numbers. */
  lemma GuardIsExact(text: seq<byte>)
    requires |text| == BASE62_LEN && IsBase62(text)
    ensures LexLess(MAX_BASE62_KSUID, text) <==> TextValue(text) >= ID_SPACE
  {
    MaxIsAllOnes();
    GuardFor(text, MAX_BASE62_KSUID);
  }

  predicate Guarded(text: seq<byte>)
  {
    |text| != BASE62_LEN || LexLess(MAX_BASE62_KSUID, text)
  }

  lemma GuardedTextsDenoteNothing(text: seq<byte>, id: Id)
    requires Guarded(text)
    ensures !Denotes(text, id)
  {
    if Denotes(text, id) {
      GuardIsExact(text);
      IdRange(id);
    }
  }

  lemma UnguardedTextsFit(text: seq<byte>)
    requires !Guarded(text) && IsBase62(text)
    ensures Fits(Digits(text), 62, 256, LEN)
  {
    GuardIsExact(text);
    IdSpaceIsPow();
  }

  // ---- The codec

  method EncodeRaw(input: array<byte>, output: array<byte>) returns (ok: bool)
    requires input != output
    requires forall i :: 0 <= i < output.Length ==> output[i] == 0
    modifies input, output
    ensures ok <==> Fits(old(input[..]), 256, 62, output.Length)
    ensures ok ==> IsBase62(output[..]) && TextValue(output[..]) == Value(old(input[..]), 256)
  {
    ok := ChangeBase(input, output, 256, 62);
    if !ok {
      return;
    }
    ghost var digits := output[..];
    for i := 0 to output.Length
      invariant forall j :: 0 <= j < i ==> IsBase62Char(output[j]) && BinOf(output[j]) == digits[j]
      invariant forall j :: i <= j < output.Length ==> output[j] == digits[j]
    {
      output[i] := CharOf(output[i]);
    }
    assert IsBase62(output[..]);
    assert Digits(output[..]) == digits;
  }

  datatype DecodeOutcome = Decoded | InvalidCharacter | Panicked

  method DecodeRaw(input: array<byte>, output: array<byte>) returns (r: DecodeOutcome)
    requires input != output
    requires forall i :: 0 <= i < output.Length ==> output[i] == 0
    modifies input, output
    ensures r.InvalidCharacter? <==> !IsBase62(old(input[..]))
    ensures r.Panicked? <==>
            IsBase62(old(input[..])) && !Fits(Digits(old(input[..])), 62, 256, output.Length)
    ensures r.Decoded? ==> Value(output[..], 256) == TextValue(old(input[..]))
  {
    ghost var text := input[..];
    for i := 0 to input.Length
      invariant forall j :: 0 <= j < i ==> IsBase62Char(text[j]) && input[j] == BinOf(text[j])
      invariant forall j :: i <= j < input.Length ==> input[j] == text[j]
      invariant output[..] == old(output[..])
    {
      assert input[i] == text[i];
      if input[i] >= 0x80 {
        return InvalidCharacter;
      }
      var b := BinOf(input[i]);
      if b < 0 {
        return InvalidCharacter;
      }
      input[i] := b;
    }
    assert IsBase62(text);
    assert input[..] == Digits(text);
    assert forall i :: 0 <= i < output.Length ==> output[i] == output[..][i] == old(output[..])[i];
    var ok := ChangeBase(input, output, 62, 256);
    return if ok then Decoded else Panicked;
  }

  /** Every identifier has a text form, and the conversion never runs off its buffer. */
  method ToBase62(id: Id) returns (text: seq<byte>)
    ensures Denotes(text, id)
  {
    var scratch := new byte[LEN](i requires 0 <= i < LEN => id[i]);
    var out := new byte[BASE62_LEN](_ => 0);
    assert scratch[..] == id;
    assert Fits(id, 256, 62, BASE62_LEN) by {
      IdRange(id);
      DigitsSuffice();
    }
    var ok := EncodeRaw(scratch, out);
    assert ok;
    text := out[..];
  }

  /** Parsing accepts exactly the text forms of identifiers, rejects everything else and never panics. */
  method FromBase62(text: seq<byte>) returns (r: Result<Id>)
    ensures r.Ok? ==> Denotes(text, r.value)
    ensures r.InvalidData? ==> forall id: Id :: !Denotes(text, id)
  {
    if Guarded(text) {
      forall id: Id
        ensures !Denotes(text, id)
      {
        GuardedTextsDenoteNothing(text, id);
      }
      return InvalidData;
    }
    var scratch := new byte[BASE62_LEN](i requires 0 <= i < |text| => text[i]);
    var ret := new byte[LEN](_ => 0);
    assert scratch[..] == text;
    if IsBase62(text) {
      UnguardedTextsFit(text);
    }
    var outcome := DecodeRaw(scratch, ret);
    assert !outcome.Panicked?;
    return if outcome.Decoded? then Ok(ret[..]) else InvalidData;
  }

  /** Text and binary form determine each other. */
  lemma DenotesIsOneToOne(t: seq<byte>, a: Id, u: seq<byte>, b: Id)
    requires Denotes(t, a) && Denotes(u, b)
    ensures t == u <==> a == b
  {
    TextOrder(t, u);
    ValueOrder(a, b, 256);
  }

  /** Printing and parsing undo each other, starting from an identifier. */
  method PrintThenParse(id: Id) returns (r: Result<Id>)
    ensures r == Ok(id)
  {
    var text := ToBase62(id);
    r := FromBase62(text);
    if r.Ok? {
      DenotesIsOneToOne(text, id, text, r.value);
    }
  }

  /** And starting from any text: it comes back unless it was refused. */
  method ParseThenPrint(text: seq<byte>) returns (r: Result<seq<byte>>)
    ensures r.Ok? ==> r.value == text
    ensures r.InvalidData? ==> forall id: Id :: !Denotes(text, id)
  {
    var parsed := FromBase62(text);
    if parsed.InvalidData? {
      return InvalidData;
    }
    var printed := ToBase62(parsed.value);
    DenotesIsOneToOne(text, parsed.value, printed, parsed.value);
    return Ok(printed);
  }

  /** Sorting texts sorts identifiers. */
  lemma SortOrder(t: seq<byte>, a: Id, u: seq<byte>, b: Id)
    requires Denotes(t, a) && Denotes(u, b)
    ensures LexLess(t, u) <==> LexLess(a, b)
  {
    TextOrder(t, u);
    ValueOrder(a, b, 256);
  }

  // ---- Timestamps

  function Timestamp(id: Id): nat
  {
    U32(id[..4])
  }

  function New(timestamp: nat, payload: seq<byte>): (id: Id)
    requires timestamp < 0x1_0000_0000 && |payload| == 16
    ensures Timestamp(id) == timestamp && id[4..] == payload
  {
    var id := PutU32(timestamp) + payload;
    assert id[..4] == PutU32(timestamp);
    id
  }

  lemma {:induction false} PrefixOrder(a: seq<int>, b: seq<int>, n: nat)
    requires n <= |a| && n <= |b| && LexLess(a[..n], b[..n])
    ensures LexLess(a, b)
  {
    if n > 0 && a[0] == b[0] {
      assert a[..n][1..] == a[1..][..n - 1] && b[..n][1..] == b[1..][..n - 1];
      PrefixOrder(a[1..], b[1..], n - 1);
    }
  }

  /** An earlier timestamp sorts first, in binary and in text. */
  lemma ChronologicalOrder(t: seq<byte>, a: Id, u: seq<byte>, b: Id)
    requires Denotes(t, a) && Denotes(u, b)
    requires Timestamp(a) < Timestamp(b)
    ensures LexLess(a, b) && LexLess(t, u)
  {
    ValueOrder(a[..4], b[..4], 256);
    PrefixOrder(a, b, 4);
    SortOrder(t, a, u, b);
  }
}
