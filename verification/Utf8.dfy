/** Which byte strings Rust's `str::from_utf8` accepts: the table of section 4 of RFC 3629. */
module Utf8 {
  import opened Bytes

  predicate Tail(b: byte)
  {
    0x80 <= b <= 0xBF
  }

  /** The length of the well-formed character at the front of `s`, or 0. */
  function CharLen(s: seq<byte>): (n: nat)
    ensures n <= |s|
  {
    if |s| >= 1 && s[0] <= 0x7F then 1
    else if |s| >= 2 && 0xC2 <= s[0] <= 0xDF && Tail(s[1]) then 2
    else if |s| >= 3 && Tail(s[1]) && Tail(s[2])
            && ((s[0] == 0xE0 && 0xA0 <= s[1]) || 0xE1 <= s[0] <= 0xEC
                || (s[0] == 0xED && s[1] <= 0x9F) || 0xEE <= s[0] <= 0xEF) then 3
    else if |s| >= 4 && Tail(s[1]) && Tail(s[2]) && Tail(s[3])
            && ((s[0] == 0xF0 && 0x90 <= s[1]) || 0xF1 <= s[0] <= 0xF3
                || (s[0] == 0xF4 && s[1] <= 0x8F)) then 4
    else 0
  }

  predicate IsUtf8(s: seq<byte>)
    decreases |s|
  {
    s == [] || (CharLen(s) > 0 && IsUtf8(s[CharLen(s)..]))
  }

  // ---- The same, as encoded characters

  /** A Unicode scalar value: any code point but a surrogate. */
  predicate IsScalar(c: int)
  {
    0 <= c < 0xD800 || 0xE000 <= c < 0x11_0000
  }

  /** One to four bytes, six bits in each but the first. */
  function Encoded(c: int): (s: seq<byte>)
    requires IsScalar(c)
    ensures s != []
  {
    if c < 0x80 then [c]
    else if c < 0x800 then [0xC0 + c / 64, 0x80 + c % 64]
    else if c < 0x1_0000 then [0xE0 + c / 64 / 64, 0x80 + c / 64 % 64, 0x80 + c % 64]
    else [0xF0 + c / 64 / 64 / 64, 0x80 + c / 64 / 64 % 64, 0x80 + c / 64 % 64, 0x80 + c % 64]
  }

  predicate AllScalars(cs: seq<int>)
  {
    forall i :: 0 <= i < |cs| ==> IsScalar(cs[i])
  }

  function EncodedAll(cs: seq<int>): seq<byte>
    requires AllScalars(cs)
  {
    if cs == [] then [] else Encoded(cs[0]) + EncodedAll(cs[1..])
  }

  /** What `CharLen` sees is the encoding at the front. */
  lemma EncodedIsChar(c: int, rest: seq<byte>)
    requires IsScalar(c)
    ensures CharLen(Encoded(c) + rest) == |Encoded(c)|
  {
  }

  lemma SixBits(high: int, low: int)
    requires 0 <= low < 64
    ensures (high * 64 + low) / 64 == high && (high * 64 + low) % 64 == low
  {
  }

  lemma TwoBytes(a: byte, b: byte) returns (c: int)
    requires 0xC2 <= a <= 0xDF && Tail(b)
    ensures IsScalar(c) && Encoded(c) == [a, b]
  {
    c := (a - 0xC0) * 64 + (b - 0x80);
    SixBits(a - 0xC0, b - 0x80);
  }

  lemma ThreeBytes(a: byte, b: byte, d: byte) returns (c: int)
    requires CharLen([a, b, d]) == 3
    ensures IsScalar(c) && Encoded(c) == [a, b, d]
  {
    var high := (a - 0xE0) * 64 + (b - 0x80);
    c := high * 64 + (d - 0x80);
    SixBits(a - 0xE0, b - 0x80);
    SixBits(high, d - 0x80);
  }

  lemma FourBytes(a: byte, b: byte, d: byte, e: byte) returns (c: int)
    requires CharLen([a, b, d, e]) == 4
    ensures IsScalar(c) && Encoded(c) == [a, b, d, e]
  {
    var high := (a - 0xF0) * 64 + (b - 0x80);
    var mid := high * 64 + (d - 0x80);
    c := mid * 64 + (e - 0x80);
    SixBits(a - 0xF0, b - 0x80);
    SixBits(high, d - 0x80);
    SixBits(mid, e - 0x80);
  }

  lemma CharIsEncoded(s: seq<byte>) returns (c: int)
    requires CharLen(s) > 0
    ensures IsScalar(c) && Encoded(c) == s[..CharLen(s)]
  {
    match CharLen(s) {
      case 1 => c := s[0];
      case 2 => c := TwoBytes(s[0], s[1]);
      case 3 => c := ThreeBytes(s[0], s[1], s[2]);
      case 4 => c := FourBytes(s[0], s[1], s[2], s[3]);
    }
  }

  lemma {:induction false} EncodedIsUtf8(cs: seq<int>)
    requires AllScalars(cs)
    ensures IsUtf8(EncodedAll(cs))
    decreases |cs|
  {
    if cs != [] {
      var first, rest := Encoded(cs[0]), EncodedAll(cs[1..]);
      EncodedIsUtf8(cs[1..]);
      EncodedIsChar(cs[0], rest);
      assert (first + rest)[|first|..] == rest;
    }
  }

  lemma {:induction false} Utf8IsEncoded(s: seq<byte>) returns (cs: seq<int>)
    requires IsUtf8(s)
    ensures AllScalars(cs) && EncodedAll(cs) == s
    decreases |s|
  {
    if s == [] {
      cs := [];
    } else {
      var n := CharLen(s);
      var c := CharIsEncoded(s);
      var rest := Utf8IsEncoded(s[n..]);
      cs := [c] + rest;
      assert cs[1..] == rest && s == s[..n] + s[n..];
    }
  }

  /** The accepted byte strings are exactly the encodings of sequences of Unicode scalar values. */
  lemma Utf8Exactly(s: seq<byte>)
    ensures IsUtf8(s) <==> exists cs: seq<int> :: AllScalars(cs) && EncodedAll(cs) == s
  {
    if IsUtf8(s) {
      var cs := Utf8IsEncoded(s);
    } else if cs: seq<int> :| AllScalars(cs) && EncodedAll(cs) == s {
      EncodedIsUtf8(cs);
      assert false;
    }
  }
}
