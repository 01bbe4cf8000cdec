/** Big-endian integers of any width. */
module Words {
  import opened Bytes
  import opened Positional

  /** The `k` bytes of `n`, most significant first. */
  function BigEndian(n: nat, k: nat): (s: seq<byte>)
    requires n < Pow(256, k)
    ensures |s| == k && Value(s, 256) == n
  {
    if k == 0 then []
    else
      var s := BigEndian(n / 256, k - 1);
      ValueSnoc(s, n % 256, 256);
      s + [n % 256]
  }

  function U32(s: seq<byte>): (n: nat)
    requires |s| == 4
    ensures n < 0x1_0000_0000
  {
    ValueBound(s, 256);
    assert Pow(256, 4) == 0x1_0000_0000;
    Value(s, 256)
  }

  function PutU32(n: nat): (s: seq<byte>)
    requires n < 0x1_0000_0000
    ensures |s| == 4 && U32(s) == n
  {
    assert Pow(256, 4) == 0x1_0000_0000;
    BigEndian(n, 4)
  }

  /** Two and three bytes of `n`, most significant first. */
  function Two(n: nat): (s: seq<byte>)
    requires n < 0x1_0000
    ensures |s| == 2
  {
    assert Pow(256, 2) == 0x1_0000;
    BigEndian(n, 2)
  }

  function Three(n: nat): (s: seq<byte>)
    requires n < 0x100_0000
    ensures |s| == 3
  {
    assert Pow(256, 3) == 0x100_0000;
    BigEndian(n, 3)
  }

  lemma ValueOfTwo(a: nat, b: nat)
    ensures Value([a, b], 256) == a * 256 + b
  {
    ValueSnoc([], a, 256);
    ValueSnoc([a], b, 256);
    assert [] + [a] == [a] && [a] + [b] == [a, b];
  }

  lemma ValueOfThree(a: nat, b: nat, c: nat)
    ensures Value([a, b, c], 256) == (a * 256 + b) * 256 + c
  {
    ValueOfTwo(a, b);
    ValueSnoc([a, b], c, 256);
    assert [a, b] + [c] == [a, b, c];
  }

  /** A two-byte integer has its high byte first. */
  lemma U16IsBigEndian(hi: byte, lo: byte)
    ensures U16(hi, lo) == Value([hi, lo], 256)
  {
    ValueOfTwo(hi, lo);
  }

  lemma LastByte(v: nat, a: byte, w: nat, b: byte)
    requires v * 256 + a == w * 256 + b
    ensures v == w && a == b
  {
  }

  /** As many bytes of the same value are the same bytes. */
  lemma {:induction false} SameBytes(s: seq<byte>, t: seq<byte>)
    requires |s| == |t| && Value(s, 256) == Value(t, 256)
    ensures s == t
    decreases |s|
  {
    if s != [] {
      var n := |s| - 1;
      LastByte(Value(s[..n], 256), s[n], Value(t[..n], 256), t[n]);
      SameBytes(s[..n], t[..n]);
      assert s == s[..n] + [s[n]] && t == t[..n] + [t[n]];
    }
  }

  lemma PutU16IsBigEndian(n: nat)
    requires n < 0x1_0000
    ensures PutU16(n) == Two(n)
  {
    var s := PutU16(n);
    assert s == [s[0], s[1]];
    U16IsBigEndian(s[0], s[1]);
    SameBytes(s, Two(n));
  }

  lemma ValueOfFour(a: nat, b: nat, c: nat, d: nat)
    ensures Value([a, b, c, d], 256) == ((a * 256 + b) * 256 + c) * 256 + d
  {
    ValueOfThree(a, b, c);
    ValueSnoc([a, b, c], d, 256);
    assert [a, b, c] + [d] == [a, b, c, d];
  }

  lemma SmallWord(n: byte)
    ensures PutU32(n) == [0, 0, 0, n]
  {
    ValueOfFour(0, 0, 0, n);
    SameBytes(PutU32(n), [0, 0, 0, n]);
  }

  lemma WordIsItsBytes(s: seq<byte>)
    requires |s| == 4
    ensures PutU32(U32(s)) == s
  {
    SameBytes(PutU32(U32(s)), s);
  }
}
