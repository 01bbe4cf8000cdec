/**
 * The streaming bencode tokenizer (boss/bencode/src/lib.rs): a growable scratch buffer for bytes
 * that had to be copied, followed by the slice most recently lent to it.
 */
module Tokenizer {
  import opened Bytes
  import opened Decimal

  datatype Node =
    | DictionaryStart
    | ArrayStart
    | ContainerEnd
    | Integer(digits: seq<byte>)
    | ByteString(data: seq<byte>)

  /** `Failed` is a length that does not fit u64; `Panicked` is a byte the tokenizer has no error path for. */
  datatype Item = Item(length: nat, node: Node) | Incomplete(missing: nat) | Failed | Panicked

  const U64_MAX: nat := 0xFFFF_FFFF_FFFF_FFFF

  /** The first position of `b`, or the length. */
  function IndexOf(s: seq<byte>, b: byte): (i: nat)
    ensures i <= |s|
    ensures i < |s| ==> s[i] == b
    ensures b !in s[..i]
  {
    if s == [] then 0
    else if s[0] == b then 0
    else
      var i := IndexOf(s[1..], b);
      assert s[..i + 1] == [s[0]] + s[1..][..i];
      1 + i
  }

  lemma IndexOfUnique(s: seq<byte>, b: byte, i: nat)
    requires i < |s| && s[i] == b && b !in s[..i]
    ensures IndexOf(s, b) == i
  {
    var j := IndexOf(s, b);
    assert forall k :: 0 <= k < j ==> s[..j][k] != b;
    assert forall k :: 0 <= k < i ==> s[..i][k] != b;
  }

  /** `check_is_digits`: one leading minus sign is dropped. */
  function StripMinus(s: seq<byte>): seq<byte>
  {
    if s != [] && s[0] == '-' as int then s[1..] else s
  }

  /** `parse_next_item`. */
  function ParseItem(s: seq<byte>): (r: Item)
    requires s != []
    ensures r.Item? ==> 0 < r.length <= |s|
    ensures r.Incomplete? ==> r.missing > 0
  {
    if s[0] == 'd' as int then Item(1, DictionaryStart)
    else if s[0] == 'l' as int then Item(1, ArrayStart)
    else if s[0] == 'e' as int then Item(1, ContainerEnd)
    else if s[0] == 'i' as int then
      var pos := IndexOf(s, 'e' as int);
      if pos == |s| then Incomplete(1)
      else
        var digits := StripMinus(s[1..pos]);
        if AllDigits(digits) then Item(1 + pos, Integer(digits)) else Panicked
    else if IsDigit(s[0]) then
      var pos := IndexOf(s, ':' as int);
      if pos == |s| then Incomplete(1)
      else if !AllDigits(s[..pos]) then Panicked
      else
        var length := NumeralValue(s[..pos]);
        var rest := s[pos + 1..];
        if length > U64_MAX then Failed
        else if |rest| < length then Incomplete(length - |rest|)
        else Item(pos + 1 + length, ByteString(rest[..length]))
    else Panicked
  }

  lemma ScanIsStable(s: seq<byte>, t: seq<byte>, b: byte)
    ensures IndexOf(s, b) < |s| ==> IndexOf(s + t, b) == IndexOf(s, b)
    ensures forall i :: 0 <= i <= |s| ==> (s + t)[..i] == s[..i]
    ensures forall i :: 1 <= i <= |s| ==> (s + t)[1..i] == s[1..i]
  {
    var i := IndexOf(s, b);
    if i < |s| {
      assert (s + t)[..i] == s[..i];
      IndexOfUnique(s + t, b, i);
    }
  }

  lemma IntegerIsStable(s: seq<byte>, t: seq<byte>)
    requires s != [] && s[0] == 'i' as int
    ensures !ParseItem(s).Incomplete? ==> ParseItem(s + t) == ParseItem(s)
    ensures ParseItem(s).Incomplete? ==> ParseItem(s).missing == 1
  {
    ScanIsStable(s, t, 'e' as int);
  }

  lemma StringIsStable(s: seq<byte>, t: seq<byte>)
    requires s != [] && IsDigit(s[0]) && t != []
    ensures !ParseItem(s).Incomplete? ==> ParseItem(s + t) == ParseItem(s)
    ensures ParseItem(s).Incomplete? && |t| < ParseItem(s).missing ==>
              ParseItem(s + t) == Incomplete(ParseItem(s).missing - |t|)
  {
    var pos := IndexOf(s, ':' as int);
    if pos < |s| {
      ScanIsStable(s, t, ':' as int);
      var rest := s[pos + 1..];
      assert (s + t)[..pos] == s[..pos] && (s + t)[pos + 1..] == rest + t;
      if AllDigits(s[..pos]) && NumeralValue(s[..pos]) <= |rest| {
        var length := NumeralValue(s[..pos]);
        assert (rest + t)[..length] == rest[..length];
      }
    }
  }

  /** More bytes never change an answer, and an incomplete item lacks exactly the bytes it says. */
  lemma ItemIsStable(s: seq<byte>, t: seq<byte>)
    requires s != []
    ensures !ParseItem(s).Incomplete? ==> ParseItem(s + t) == ParseItem(s)
    ensures ParseItem(s).Incomplete? && |t| < ParseItem(s).missing ==>
              ParseItem(s + t) == Incomplete(ParseItem(s).missing - |t|)
  {
    if t == [] {
      assert s + t == s;
    } else if s[0] == 'i' as int {
      IntegerIsStable(s, t);
    } else if IsDigit(s[0]) {
      StringIsStable(s, t);
    }
  }

  // ---- The grammar of items

  /** `t` is the whole text of `node`: d, l, e, i followed by digits and e, or a length, a colon and the bytes. */
  predicate Spells(t: seq<byte>, node: Node)
  {
    match node
    case DictionaryStart => t == [100]
    case ArrayStart => t == [108]
    case ContainerEnd => t == [101]
    case Integer(digits) =>
      AllDigits(digits) && (t == [105] + digits + [101] || t == [105, 45] + digits + [101])
    case ByteString(data) =>
      |data| < |t| && t[|t| - |data|..] == data && t[|t| - |data| - 1] == 58
      && var length := t[..|t| - |data| - 1];
         length != [] && AllDigits(length) && NumeralValue(length) == |data| <= 0xFFFF_FFFF_FFFF_FFFF
  }

  lemma SpelledInteger(s: seq<byte>, n: nat, digits: seq<byte>)
    requires n <= |s| && Spells(s[..n], Integer(digits))
    ensures ParseItem(s) == Item(n, Integer(digits))
  {
    var t := s[..n];
    assert t[n - 1] == 101 && s[n - 1] == 101;
    assert s[..n - 1] == t[..n - 1];
    IndexOfUnique(s, 101, n - 1);
    assert s[1..n - 1] == t[1..n - 1];
    if t == [105] + digits + [101] {
      assert t[1..n - 1] == digits;
    } else {
      assert t[1..n - 1] == [45] + digits;
      assert StripMinus([45] + digits) == digits;
    }
  }

  lemma SpelledString(s: seq<byte>, n: nat, data: seq<byte>)
    requires n <= |s| && Spells(s[..n], ByteString(data))
    ensures ParseItem(s) == Item(n, ByteString(data))
  {
    var t := s[..n];
    var pos := n - |data| - 1;
    assert s[..pos] == t[..pos] && s[pos] == 58;
    assert s[0] == s[..pos][0];
    IndexOfUnique(s, 58, pos);
    var rest := s[pos + 1..];
    assert rest[..|data|] == s[pos + 1..n] == t[pos + 1..] == data;
  }

  lemma SpelledIsRead(s: seq<byte>, n: nat, node: Node)
    requires n <= |s| && Spells(s[..n], node)
    ensures s != [] && ParseItem(s) == Item(n, node)
  {
    var t := s[..n];
    assert t != [] && t[0] == s[0];
    match node {
      case Integer(digits) => SpelledInteger(s, n, digits);
      case ByteString(data) => SpelledString(s, n, data);
      case _ =>
    }
  }

  lemma ReadIsSpelled(s: seq<byte>, n: nat, node: Node)
    requires s != [] && ParseItem(s) == Item(n, node)
    ensures n <= |s| && Spells(s[..n], node)
  {
    if s[0] == 105 {
      var pos := IndexOf(s, 101);
      var inner := s[1..pos];
      assert s[..n] == [105] + inner + [101];
      if inner != [] && inner[0] == 45 {
        assert inner == [45] + inner[1..];
        assert s[..n] == [105, 45] + inner[1..] + [101];
      }
    } else if IsDigit(s[0]) {
      var pos := IndexOf(s, 58);
      var t, data := s[..n], node.data;
      assert t[..pos] == s[..pos] && t[pos] == 58 && t[pos + 1..] == data;
    } else {
      assert s[..1] == [s[0]];
    }
  }

  /** An item is read exactly when one is spelled out at the front, and it is that one. */
  lemma ItemExactly(s: seq<byte>, n: nat, node: Node)
    requires s != []
    ensures ParseItem(s) == Item(n, node) <==> n <= |s| && Spells(s[..n], node)
  {
    if n <= |s| && Spells(s[..n], node) {
      SpelledIsRead(s, n, node);
    }
    if ParseItem(s) == Item(n, node) {
      ReadIsSpelled(s, n, node);
    }
  }

  lemma CutString(t: seq<byte>, data: seq<byte>, k: nat)
    requires Spells(t, ByteString(data)) && 0 < k < |t|
    ensures ParseItem(t[..k]) == Incomplete(if k < |t| - |data| then 1 else |t| - k)
  {
    var s, pos := t[..k], |t| - |data| - 1;
    assert t[..pos][0] == t[0] == s[0];
    if k <= pos {
      assert forall i :: 0 <= i < k ==> s[i] == t[..pos][i];
    } else {
      assert s[..pos] == t[..pos] && s[pos] == 58;
      IndexOfUnique(s, 58, pos);
    }
  }

  /** An item cut short asks for more: for exactly the rest of a string whose length is known, else for one byte. */
  lemma CutItem(t: seq<byte>, node: Node, k: nat)
    requires Spells(t, node) && 0 < k < |t|
    ensures ParseItem(t[..k])
         == Incomplete(if node.ByteString? && k >= |t| - |node.data| then |t| - k else 1)
  {
    match node {
      case ByteString(data) => CutString(t, data, k);
      case Integer(digits) => assert 101 !in t[..k] && t[..k][0] == 105;
      case _ =>
    }
  }

  /** What cannot be an item: no item starts with the first byte, digits are missing, or a length is too large. */
  lemma NoItem(s: seq<byte>)
    requires s != []
    ensures s[0] !in {100, 101, 105, 108} && !IsDigit(s[0]) ==> ParseItem(s) == Panicked
    ensures forall inner, t :: s == [105] + inner + [101] + t && 101 !in inner
                               && !AllDigits(inner) && !(inner != [] && inner[0] == 45 && AllDigits(inner[1..])) ==>
              ParseItem(s) == Panicked
    ensures forall length, t :: s == length + [58] + t && length != [] && 58 !in length && IsDigit(length[0]) ==>
              if !AllDigits(length) then ParseItem(s) == Panicked
              else NumeralValue(length) > 0xFFFF_FFFF_FFFF_FFFF ==> ParseItem(s) == Failed
  {
    forall inner, t | s == [105] + inner + [101] + t && 101 !in inner
                      && !AllDigits(inner) && !(inner != [] && inner[0] == 45 && AllDigits(inner[1..]))
      ensures ParseItem(s) == Panicked
    {
      assert s[0] == 105 && s[1 + |inner|] == 101 && s[..1 + |inner|] == [105] + inner && s[1..1 + |inner|] == inner;
      IndexOfUnique(s, 101, 1 + |inner|);
    }
    forall length, t | s == length + [58] + t && length != [] && 58 !in length && IsDigit(length[0])
      ensures if !AllDigits(length) then ParseItem(s) == Panicked
              else NumeralValue(length) > 0xFFFF_FFFF_FFFF_FFFF ==> ParseItem(s) == Failed
    {
      assert s[0] == length[0] && s[|length|] == 58 && s[..|length|] == length;
      IndexOfUnique(s, 58, |length|);
    }
  }

  // ---- Token streams

  /** `s` starts with the items `ts`, and `rest` follows them. */
  predicate Consumes(s: seq<byte>, ts: seq<Item>, rest: seq<byte>)
    decreases |ts|
  {
    if ts == [] then s == rest
    else s != [] && ts[0].Item? && ParseItem(s) == ts[0] && Consumes(s[ts[0].length..], ts[1..], rest)
  }

  /** No further item can be read from `s`. */
  predicate Stuck(s: seq<byte>)
  {
    s == [] || !ParseItem(s).Item?
  }

  /** All items of `s`, read as one buffer, up to the first position where none can be read. */
  function Tokens(s: seq<byte>): seq<Item>
    decreases |s|
  {
    if Stuck(s) then [] else [ParseItem(s)] + Tokens(s[ParseItem(s).length..])
  }

  /** Items read off `s` are a prefix of its tokens, all of them exactly when nothing more can be read. */
  lemma {:induction false} ConsumesTokens(s: seq<byte>, ts: seq<Item>, rest: seq<byte>)
    requires Consumes(s, ts, rest)
    ensures ts <= Tokens(s)
    ensures Stuck(rest) <==> ts == Tokens(s)
    decreases |ts|
  {
    if ts != [] {
      ConsumesTokens(s[ts[0].length..], ts[1..], rest);
      assert ts == [ts[0]] + ts[1..];
    }
  }

  lemma {:induction false} ConsumesMore(s: seq<byte>, ts: seq<Item>, rest: seq<byte>, t: seq<byte>)
    requires Consumes(s, ts, rest)
    ensures Consumes(s + t, ts, rest + t)
    decreases |ts|
  {
    if ts != [] {
      ItemIsStable(s, t);
      assert (s + t)[ts[0].length..] == s[ts[0].length..] + t;
      ConsumesMore(s[ts[0].length..], ts[1..], rest, t);
    }
  }

  lemma {:induction false} ConsumesNext(s: seq<byte>, ts: seq<Item>, rest: seq<byte>, item: Item)
    requires Consumes(s, ts, rest) && rest != [] && item.Item? && ParseItem(rest) == item
    ensures Consumes(s, ts + [item], rest[item.length..])
    decreases |ts|
  {
    if ts == [] {
      assert ts + [item] == [item] && [item][1..] == [];
    } else {
      ConsumesNext(s[ts[0].length..], ts[1..], rest, item);
      assert (ts + [item])[1..] == ts[1..] + [item];
    }
  }

  // ---- The tokenizer

  lemma DropLeft(a: seq<byte>, b: seq<byte>, n: nat)
    requires n <= |a|
    ensures (a + b)[n..] == a[n..] + b
  {
  }

  lemma MoveRight(a: seq<byte>, b: seq<byte>, n: nat)
    requires n <= |b|
    ensures (a + b[..n]) + b[n..] == a + b
  {
  }

  /** The live scratch bytes, and the lent bytes that follow them. */
  datatype Buffers = Buffers(live: seq<byte>, data: seq<byte>)

  /** Where the bytes are when `Next` answers: an unfinished item draws what it lacks into scratch. */
  function Settled(b: Buffers): (r: Buffers)
    ensures r.live + r.data == b.live + b.data
    decreases |b.data|
  {
    if b.live == [] then
      if b.data != [] && ParseItem(b.data).Incomplete? then Buffers(b.data, []) else b
    else
      match ParseItem(b.live)
      case Incomplete(n) =>
        if n <= |b.data| then
          MoveRight(b.live, b.data, n);
          Settled(Buffers(b.live + b.data[..n], b.data[n..]))
        else b
      case _ => b
  }

  /** What is said about unread bytes `u` when `waiting` of them are still in the lent slice. */
  function Reply(u: seq<byte>, waiting: nat): Item
  {
    if u == [] then Incomplete(1)
    else match ParseItem(u)
      case Incomplete(n) => Incomplete(n + waiting)
      case item => item
  }

  /** What `Next` answers. */
  function Answer(b: Buffers): (r: Item)
    ensures r.Item? ==> 0 < r.length <= |b.live + b.data|
  {
    Reply(b.live + b.data, |Settled(b).data|)
  }

  /** The bytes of an item are taken from the buffer that holds it. */
  function Dropped(b: Buffers, n: nat): Buffers
  {
    if b.live != [] then Buffers(if n <= |b.live| then b.live[n..] else [], b.data)
    else Buffers([], if n <= |b.data| then b.data[n..] else [])
  }

  function AfterNext(b: Buffers, isPeek: bool): Buffers
  {
    if Answer(b).Item? && !isPeek then Dropped(Settled(b), Answer(b).length) else Settled(b)
  }

  lemma {:induction false} SettledHoldsItem(b: Buffers)
    requires Answer(b).Item?
    ensures var c := Settled(b); Answer(b).length <= |if c.live != [] then c.live else c.data|
    decreases |b.data|
  {
    if b.live == [] {
      assert b.live + b.data == b.data;
    } else {
      ItemIsStable(b.live, b.data);
      match ParseItem(b.live) {
        case Incomplete(n) =>
          if n <= |b.data| {
            MoveRight(b.live, b.data, n);
            SettledHoldsItem(Buffers(b.live + b.data[..n], b.data[n..]));
          }
        case _ =>
      }
    }
  }

  /** The item whose bytes are dropped is whole in that buffer, so nothing else is. */
  lemma {:induction false} DropsItem(b: Buffers)
    requires Answer(b).Item?
    ensures var r, n := AfterNext(b, false), Answer(b).length; r.live + r.data == (b.live + b.data)[n..]
  {
    var c, n := Settled(b), Answer(b).length;
    SettledHoldsItem(b);
    if c.live != [] {
      DropLeft(c.live, c.data, n);
    } else {
      assert c.live + c.data == c.data;
    }
  }

  /** Live scratch bytes decide the answer, unless what they lack is waiting. */
  lemma ScratchReply(b: Buffers)
    requires b.live != []
    ensures var r := ParseItem(b.live);
            if r.Incomplete? && r.missing <= |b.data|
            then Settled(b) == Settled(Buffers(b.live + b.data[..r.missing], b.data[r.missing..]))
            else Settled(b) == b && Answer(b) == r
  {
    ItemIsStable(b.live, b.data);
  }

  /** An answer `r` leaves `c` of `b`: an item is taken unless it was only peeked at. */
  ghost predicate Leaves(b: Buffers, c: Buffers, isPeek: bool, r: Item)
  {
    && c == AfterNext(b, isPeek)
    && var u := b.live + b.data;
       if r.Item? && !isPeek then r.length <= |u| && c.live + c.data == u[r.length..] else c.live + c.data == u
  }

  lemma TakenFromScratch(b: Buffers, length: nat, node: Node)
    requires b.live != [] && ParseItem(b.live) == Item(length, node)
    ensures Answer(b) == Item(length, node)
    ensures Leaves(b, b, true, Answer(b)) && Leaves(b, Buffers(b.live[length..], b.data), false, Answer(b))
  {
    ScratchReply(b);
    DropLeft(b.live, b.data, length);
  }

  lemma LeftInScratch(b: Buffers, isPeek: bool)
    requires b.live != [] && !ParseItem(b.live).Item?
    requires ParseItem(b.live).Incomplete? ==> ParseItem(b.live).missing > |b.data|
    ensures Answer(b) == ParseItem(b.live) && Leaves(b, b, isPeek, Answer(b))
  {
    ScratchReply(b);
  }

  /** With nothing live in scratch the lent slice decides. */
  lemma DataReply(b: Buffers)
    requires b.live == []
    ensures Answer(b) == if b.data == [] then Incomplete(1) else ParseItem(b.data)
    ensures Answer(b).Item? ==> Answer(b).length <= |b.data|
    ensures Settled(b) == if b.data != [] && Answer(b).Incomplete? then Buffers(b.data, []) else b
  {
    assert [] + b.data == b.data;
  }

  lemma NothingBefore(data: seq<byte>, n: nat)
    requires n <= |data|
    ensures [] + data == data && [] + data[n..] == ([] + data)[n..]
  {
  }

  lemma TakenFromData(b: Buffers, n: nat)
    requires b.live == [] && Answer(b).Item? && Answer(b).length == n
    ensures n <= |b.data| && Leaves(b, b, true, Answer(b))
    ensures Leaves(b, Buffers([], b.data[n..]), false, Answer(b))
  {
    DataReply(b);
    NothingBefore(b.data, n);
  }

  lemma LeftInData(b: Buffers, isPeek: bool)
    requires b.live == [] && !Answer(b).Item?
    ensures Leaves(b, Settled(b), isPeek, Answer(b))
  {
  }

  class Tokenizer {
    var totalOffset: nat
    var scratchOffset: nat
    var scratch: seq<byte>
    var capacity: nat
    var data: seq<byte>

    predicate Valid()
      reads this
    {
      scratchOffset <= |scratch| <= capacity
    }

    function Held(): Buffers
      requires Valid()
      reads this
    {
      Buffers(scratch[scratchOffset..], data)
    }

    function Unread(): seq<byte>
      requires Valid()
      reads this
    {
      scratch[scratchOffset..] + data
    }

    constructor (bytes: seq<byte>)
      ensures Valid() && Unread() == bytes && totalOffset == 0 && scratch == [] && data == bytes
    {
      totalOffset, scratchOffset, scratch, capacity, data := 0, 0, [], 0, bytes;
    }

    /** Appends to the scratch vector, which may reallocate to any sufficient capacity. */
    method ExtendScratch(bytes: seq<byte>)
      requires Valid()
      modifies this`scratch, this`capacity
      ensures Valid() && scratch == old(scratch) + bytes
    {
      scratch := scratch + bytes;
      if capacity < |scratch| {
        var c :| |scratch| <= c;
        capacity := c;
      }
    }

    method AddDataCopying(bytes: seq<byte>)
      requires Valid()
      modifies this
      ensures Valid() && Unread() == old(Unread()) + bytes && totalOffset == old(totalOffset)
      ensures Held() == Buffers(old(Unread()) + bytes, [])
    {
      ExtendScratch(data);
      ExtendScratch(bytes);
      data := [];
    }

    method AddData(bytes: seq<byte>)
      requires Valid()
      modifies this
      ensures Valid() && Unread() == old(Unread()) + bytes && totalOffset == old(totalOffset)
      ensures Held() == Buffers(old(Unread()), bytes)
    {
      ExtendScratch(data);
      data := bytes;
    }

    /**
     * Moves the live bytes to the front of the vector and cuts it. The copy covers only as many bytes
     * as lie before the split, which is all of them because more than half the capacity is dead.
     */
    method FixupScratch()
      requires Valid() && capacity / 2 < scratchOffset
      modifies this`scratch, this`scratchOffset
      ensures Valid() && scratchOffset == 0 && scratch == old(scratch[scratchOffset..])
    {
      var split, valid := scratchOffset, |scratch| - scratchOffset;
      ghost var was := scratch;
      var k := 0;
      while k < split && k < |scratch| - split
        invariant 0 <= k <= split && k <= valid && |scratch| == |was|
        invariant scratch[..k] == was[split..split + k]
        invariant scratch[split..] == was[split..]
      {
        assert scratch[split + k] == scratch[split..][k] == was[split + k];
        scratch := scratch[k := scratch[split + k]];
        k := k + 1;
        assert scratch[..k] == was[split..split + k - 1] + [was[split + k - 1]];
      }
      assert k == valid;
      scratch := scratch[..valid];
      scratchOffset := 0;
    }

    ghost predicate Took(isPeek: bool, r: Item, b: Buffers, total: nat)
      reads this
    {
      && Valid() && Leaves(b, Held(), isPeek, r)
      && totalOffset == if r.Item? && !isPeek then total + r.length else total
    }

    /** Moves the first `n` bytes of the lent slice to the end of scratch. */
    method DrawIn(n: nat)
      requires Valid() && n <= |data|
      modifies this`scratch, this`capacity, this`data
      ensures Valid() && data == old(data)[n..]
      ensures scratch[scratchOffset..] == old(scratch[scratchOffset..]) + old(data)[..n]
    {
      ExtendScratch(data[..n]);
      data := data[n..];
    }

    /** One turn of the loop with live scratch bytes: an answer, or more data moved into scratch. */
    method NextFromScratch(isPeek: bool) returns (done: bool, r: Item)
      requires Valid() && scratchOffset < |scratch|
      modifies this
      ensures Valid()
      ensures done ==> r == Answer(old(Held())) && Took(isPeek, r, old(Held()), old(totalOffset))
      ensures !done ==> Settled(Held()) == Settled(old(Held())) && Unread() == old(Unread())
      ensures !done ==> totalOffset == old(totalOffset) && |data| < |old(data)|
    {
      ghost var b := Held();
      var live := scratch[scratchOffset..];
      r := ParseItem(live);
      match r {
        case Item(length, node) =>
          TakenFromScratch(b, length, node);
          if !isPeek {
            totalOffset := totalOffset + length;
            scratchOffset := scratchOffset + length;
            assert scratch[scratchOffset..] == live[length..];
          }
          return true, r;
        case Incomplete(length) =>
          if length <= |data| {
            ScratchReply(b);
            MoveRight(live, data, length);
            DrawIn(length);
            return false, r;
          }
        case _ =>
      }
      LeftInScratch(b, isPeek);
      return true, r;
    }

    /** The rest of the loop body: nothing live in scratch. */
    method NextFromData(isPeek: bool) returns (r: Item)
      requires Valid() && scratchOffset == |scratch|
      modifies this
      ensures r == Answer(old(Held())) && Took(isPeek, r, old(Held()), old(totalOffset))
      ensures !r.Incomplete? ==> scratch == old(scratch)
    {
      ghost var b := Held();
      DataReply(b);
      if data == [] {
        LeftInData(b, isPeek);
        return Incomplete(1);
      }
      r := ParseItem(data);
      match r {
        case Item(length, _) =>
          TakenFromData(b, length);
          if !isPeek {
            totalOffset := totalOffset + length;
            data := data[length..];
          }
        case Incomplete(_) =>
          LeftInData(b, isPeek);
          ExtendScratch(data);
          data := [];
          assert scratch[scratchOffset..] == b.data;
        case _ =>
          LeftInData(b, isPeek);
      }
    }

    /**
     * The next token of the unread bytes, whichever buffers they are in. The count of an Incomplete
     * answer overshoots by the bytes still waiting in `data`.
     */
    method Next(isPeek: bool) returns (r: Item)
      requires Valid()
      modifies this
      ensures Valid()
      ensures r == Answer(old(Held())) && Took(isPeek, r, old(Held()), old(totalOffset))
      ensures old(scratch) == [] && !r.Incomplete? ==> scratch == []
    {
      while true
        invariant old(scratch) == [] ==> scratch == []
        invariant Valid() && Unread() == old(Unread()) && totalOffset == old(totalOffset)
        invariant Settled(Held()) == Settled(old(Held()))
        decreases |data|
      {
        if capacity / 2 < scratchOffset {
          FixupScratch();
        }
        if scratchOffset < |scratch| {
          var done;
          done, r := NextFromScratch(isPeek);
          if done {
            return;
          }
        } else {
          r := NextFromData(isPeek);
          return;
        }
      }
    }
  }

  // ---- Whole runs

  datatype Op = Feed(bytes: seq<byte>, copying: bool) | Read(isPeek: bool)

  function Fed(ops: seq<Op>): seq<byte>
  {
    if ops == [] then []
    else Fed(ops[..|ops| - 1]) + (if ops[|ops| - 1].Feed? then ops[|ops| - 1].bytes else [])
  }

  /** Tokens taken, replies given, and the bytes left. */
  datatype Progress = Progress(tokens: seq<Item>, replies: seq<Item>, left: Buffers)

  function UnreadOf(p: Progress): seq<byte>
  {
    p.left.live + p.left.data
  }

  /** What a schedule must do: each read takes the next item if there is one, and each read or peek is answered. */
  function Expected(ops: seq<Op>): Progress
  {
    if ops == [] then Progress([], [], Buffers([], []))
    else
      var p := Expected(ops[..|ops| - 1]);
      match ops[|ops| - 1]
      case Feed(bytes, copying) =>
        p.(left := if copying then Buffers(UnreadOf(p) + bytes, []) else Buffers(UnreadOf(p), bytes))
      case Read(isPeek) =>
        var reply := Answer(p.left);
        Progress(if reply.Item? && !isPeek then p.tokens + [reply] else p.tokens, p.replies + [reply],
                 AfterNext(p.left, isPeek))
  }

  /** The expected tokens are those of everything fed, read as one buffer, as far as the reads went. */
  lemma {:induction false} ExpectedTokens(ops: seq<Op>)
    ensures var p := Expected(ops);
            && Consumes(Fed(ops), p.tokens, UnreadOf(p))
            && p.tokens <= Tokens(Fed(ops)) && (Stuck(UnreadOf(p)) <==> p.tokens == Tokens(Fed(ops)))
    decreases |ops|
  {
    if ops != [] {
      var before := ops[..|ops| - 1];
      var p := Expected(before);
      ExpectedTokens(before);
      match ops[|ops| - 1] {
        case Feed(bytes, _) =>
          ConsumesMore(Fed(before), p.tokens, UnreadOf(p), bytes);
          assert UnreadOf(p) + bytes + [] == UnreadOf(p) + bytes;
        case Read(isPeek) =>
          assert Fed(before) + [] == Fed(before);
          if !isPeek && Answer(p.left).Item? {
            DropsItem(p.left);
            ConsumesNext(Fed(before), p.tokens, UnreadOf(p), ParseItem(UnreadOf(p)));
          }
      }
    }
    ConsumesTokens(Fed(ops), Expected(ops).tokens, UnreadOf(Expected(ops)));
  }

  /** A read is answered with the next item of what is unread; a missing count is right if nothing waits. */
  lemma RepliesExactly(ops: seq<Op>, isPeek: bool)
    ensures var u, r := UnreadOf(Expected(ops)), Expected(ops + [Read(isPeek)]).replies;
            var waiting := |Settled(Expected(ops).left).data|;
            && r == Expected(ops).replies + [Reply(u, waiting)]
            && (u != [] ==> (Reply(u, waiting) == ParseItem(u) <==> ParseItem(u).Incomplete? ==> waiting == 0))
  {
    assert (ops + [Read(isPeek)])[..|ops|] == ops;
  }

  lemma ExpectedSnoc(ops: seq<Op>, op: Op)
    ensures (ops + [op])[..|ops|] == ops
    ensures Fed(ops + [op]) == Fed(ops) + if op.Feed? then op.bytes else []
    ensures op.Feed? && !op.copying ==>
              Expected(ops + [op]) == Expected(ops).(left := Buffers(UnreadOf(Expected(ops)), op.bytes))
    ensures op == Read(false) && !Answer(Expected(ops).left).Item? ==>
              Expected(ops + [op]) == Expected(ops).(replies := Expected(ops).replies + [Answer(Expected(ops).left)],
                                                     left := Settled(Expected(ops).left))
  {
  }

  /** A slice with an unfinished item is drawn into scratch by a read. */
  lemma ReadUnfinished(s: seq<byte>) returns (ops: seq<Op>)
    requires s != [] && ParseItem(s).Incomplete?
    ensures ops == [] + [Feed(s, false)] + [Read(false)]
    ensures Expected(ops) == Progress([], [ParseItem(s)], Buffers(s, [])) && Fed(ops) == s
  {
    ops := [] + [Feed(s, false)];
    ExpectedSnoc([], Feed(s, false));
    assert [] + s == s && s + [] == s;
    assert Expected(ops).left == Buffers([], s) && Settled(Buffers([], s)) == Buffers(s, []);
    ExpectedSnoc(ops, Read(false));
    ops := ops + [Read(false)];
  }

  /** An item that lacks `n` bytes, read in two parts: `n` are still said to be missing when `t` of them has come. */
  lemma CountOvershoots(s: seq<byte>, t: seq<byte>) returns (ops: seq<Op>)
    requires s != [] && ParseItem(s).Incomplete? && 0 < |t| < ParseItem(s).missing
    ensures ops == [] + [Feed(s, false)] + [Read(false)] + [Feed(t, false)] + [Read(false)]
    ensures var n := ParseItem(s).missing;
            && Expected(ops).replies == [Incomplete(n)] + [Incomplete(n)]
            && Fed(ops) == s + t && ParseItem(s + t) == Incomplete(n - |t|)
  {
    ops := ReadUnfinished(s);
    assert s + [] == s;
    ExpectedSnoc(ops, Feed(t, false));
    ops := ops + [Feed(t, false)];
    assert Expected(ops).left == Buffers(s, t);
    LeftInScratch(Buffers(s, t), false);
    ExpectedSnoc(ops, Read(false));
    ops := ops + [Read(false)];
    ItemIsStable(s, t);
  }

  /**
   * Any schedule of feeding, peeking and reading takes the tokens of one buffer and gets exactly the
   * expected replies; `total_offset` is how far it got.
   */
  method RunSchedule(ops: seq<Op>) returns (tokens: seq<Item>, replies: seq<Item>, tz: Tokenizer)
    ensures fresh(tz) && tz.Valid()
    ensures Progress(tokens, replies, tz.Held()) == Expected(ops)
    ensures tz.totalOffset == |Fed(ops)| - |tz.Unread()|
  {
    tz := new Tokenizer([]);
    tokens, replies := [], [];
    for i := 0 to |ops|
      invariant fresh(tz) && tz.Valid()
      invariant Progress(tokens, replies, tz.Held()) == Expected(ops[..i])
      invariant tz.totalOffset == |Fed(ops[..i])| - |tz.Unread()|
    {
      assert ops[..i + 1][..i] == ops[..i];
      match ops[i] {
        case Feed(bytes, copying) =>
          if copying {
            tz.AddDataCopying(bytes);
          } else {
            tz.AddData(bytes);
          }
        case Read(isPeek) =>
          var item := tz.Next(isPeek);
          replies := replies + [item];
          if item.Item? && !isPeek {
            tokens := tokens + [item];
          }
      }
    }
    assert ops[..|ops|] == ops;
  }
}
