/**
 * The bencode serializer and deserializer as they run: appending to a writer, collecting map
 * entries before they are written, and pulling tokens from a tokenizer.
 */
module BencodeSerde {
  import opened Bytes
  import opened Decimal
  import opened SortedMap
  import opened Utf8
  import opened Bencode
  import T = Tokenizer

  class Writer {
    var out: seq<byte>

    constructor ()
      ensures out == []
    {
      out := [];
    }

    method Write(s: seq<byte>)
      modifies this
      ensures out == old(out) + s
    {
      out := out + s;
    }
  }

  // ---- Maps

  /** Encoded entries in key order, as `end` writes them. */
  function Emitted(es: seq<Entry<seq<byte>>>): seq<byte>
  {
    if es == [] then []
    else Emitted(es[..|es| - 1]) + StringBytes(es[|es| - 1].key) + es[|es| - 1].value
  }

  lemma Grouped(a: seq<byte>, b: seq<byte>, c: seq<byte>, d: seq<byte>)
    ensures a + b + c + d == a + (b + c + d)
  {
  }

  lemma EmittedSnoc(before: seq<byte>, es: seq<Entry<seq<byte>>>, i: nat)
    requires i < |es|
    ensures before + Emitted(es[..i + 1]) == before + Emitted(es[..i]) + StringBytes(es[i].key) + es[i].value
  {
    assert es[..i + 1][..i] == es[..i];
    Grouped(before, Emitted(es[..i]), StringBytes(es[i].key), es[i].value);
  }

  class SerializeMap {
    var keyval: seq<Entry<seq<byte>>>
    var lastKey: Option<seq<byte>>

    constructor ()
      ensures keyval == [] && lastKey == None
    {
      keyval, lastKey := [], None;
    }

    /** Keys that are not UTF-8 are an error. */
    method SerializeKey(key: seq<byte>) returns (ok: bool)
      modifies this
      ensures ok <==> IsUtf8(key)
      ensures keyval == old(keyval) && lastKey == if ok then Some(key) else old(lastKey)
    {
      ok := IsUtf8(key);
      if ok {
        lastKey := Some(key);
      }
    }

    /** Binds the pending key; whatever the order of calls, the entries stay in strictly increasing key order. */
    method SerializeValue(encoded: seq<byte>)
      requires lastKey.Some? && Increasing(keyval)
      modifies this
      ensures lastKey == None && Increasing(keyval)
      ensures keyval == Insert(old(keyval), old(lastKey).value, encoded)
      ensures forall e ::
                e in keyval <==> (e == Entry(old(lastKey).value, encoded)
                                  || (e in old(keyval) && e.key != old(lastKey).value))
    {
      var key := lastKey.value;
      InsertKeepsOrder(keyval, key, encoded);
      forall e
        ensures e in Insert(keyval, key, encoded) <==> e == Entry(key, encoded) || (e in keyval && e.key != key)
      {
        InsertMembers(keyval, key, encoded, e);
      }
      lastKey := None;
      keyval := Insert(keyval, key, encoded);
    }

    method End(w: Writer)
      modifies w
      ensures w.out == old(w.out) + Emitted(keyval) + ['e' as int]
    {
      for i := 0 to |keyval|
        invariant w.out == old(w.out) + Emitted(keyval[..i])
      {
        var e := keyval[i];
        EmittedSnoc(old(w.out), keyval, i);
        w.Write(Show(|e.key|) + [':' as int] + e.key);
        w.Write(e.value);
      }
      assert keyval[..|keyval|] == keyval;
      w.Write(['e' as int]);
    }
  }

  // ---- Serializing values

  lemma {:induction false} EncodeItemsSnoc(items: seq<Value>, i: nat)
    requires i < |items|
    ensures EncodeItems(items[..i + 1]) == EncodeItems(items[..i]) + Encode(items[i])
    decreases i
  {
    if i == 0 {
      assert items[..1] == [items[0]];
    } else {
      var rest := items[1..];
      EncodeItemsSnoc(rest, i - 1);
      assert items[..i + 1][1..] == rest[..i] && items[..i][1..] == rest[..i - 1] && rest[i - 1] == items[i];
      ConcatAssoc(Encode(items[0]), EncodeItems(rest[..i - 1]), Encode(items[i]));
    }
  }

  /** The encoded form of each entry's value. */
  function Encoded(entries: seq<Entry<Value>>): (r: seq<Entry<seq<byte>>>)
    ensures |r| == |entries|
    ensures forall i :: 0 <= i < |r| ==> r[i] == Entry(entries[i].key, Encode(entries[i].value))
  {
    seq(|entries|, i requires 0 <= i < |entries| => Entry(entries[i].key, Encode(entries[i].value)))
  }

  lemma {:induction false} EncodeEntriesSnoc(entries: seq<Entry<Value>>)
    requires entries != []
    ensures var n := |entries| - 1;
            EncodeEntries(entries)
            == EncodeEntries(entries[..n]) + StringBytes(entries[n].key) + Encode(entries[n].value)
    decreases |entries|
  {
    var n := |entries| - 1;
    if n > 0 {
      EncodeEntriesSnoc(entries[1..]);
      assert entries[..n][1..] == entries[1..][..n - 1];
      var first := StringBytes(entries[0].key) + Encode(entries[0].value);
      Grouped(first, EncodeEntries(entries[1..][..n - 1]), StringBytes(entries[n].key), Encode(entries[n].value));
    }
  }

  lemma {:induction false} EntriesAreEmitted(entries: seq<Entry<Value>>)
    ensures Emitted(Encoded(entries)) == EncodeEntries(entries)
    decreases |entries|
  {
    if entries != [] {
      var n := |entries| - 1;
      assert Encoded(entries)[..n] == Encoded(entries[..n]);
      EntriesAreEmitted(entries[..n]);
      EncodeEntriesSnoc(entries);
    }
  }

  method SerializeItems(items: seq<Value>, w: Writer) returns (ok: bool)
    requires forall i :: 0 <= i < |items| ==> Valid(items[i])
    modifies w
    ensures ok <==> forall i :: 0 <= i < |items| ==> Encodable(items[i])
    ensures ok ==> w.out == old(w.out) + EncodeItems(items)
    decreases items, 0
  {
    for i := 0 to |items|
      invariant forall j :: 0 <= j < i ==> Encodable(items[j])
      invariant w.out == old(w.out) + EncodeItems(items[..i])
    {
      EncodeItemsSnoc(items, i);
      ConcatAssoc(old(w.out), EncodeItems(items[..i]), Encode(items[i]));
      var good := Serialize(items[i], w);
      if !good {
        return false;
      }
    }
    assert items[..|items|] == items;
    return true;
  }

  predicate EncodableEntry(e: Entry<Value>)
  {
    IsUtf8(e.key) && Encodable(e.value)
  }

  /** One key and its value, encoded into a buffer of its own. */
  method SerializeEntry(e: Entry<Value>, m: SerializeMap) returns (ok: bool)
    requires Valid(e.value) && Increasing(m.keyval)
    modifies m
    ensures ok <==> EncodableEntry(e)
    ensures ok ==> m.keyval == Insert(old(m.keyval), e.key, Encode(e.value)) && Increasing(m.keyval)
    decreases e, 0
  {
    ok := m.SerializeKey(e.key);
    if !ok {
      return;
    }
    var s := new Writer();
    ok := Serialize(e.value, s);
    if !ok {
      return;
    }
    assert s.out == Encode(e.value);
    m.SerializeValue(s.out);
  }

  lemma EncodedSnoc(entries: seq<Entry<Value>>, i: nat)
    requires i < |entries| && Increasing(entries)
    ensures Increasing(Encoded(entries[..i]))
    ensures Encoded(entries[..i + 1]) == Insert(Encoded(entries[..i]), entries[i].key, Encode(entries[i].value))
  {
    assert Encoded(entries[..i + 1])
        == Encoded(entries[..i]) + [Entry(entries[i].key, Encode(entries[i].value))];
    InsertLast(Encoded(entries[..i]), entries[i].key, Encode(entries[i].value));
  }

  method SerializeEntries(entries: seq<Entry<Value>>, m: SerializeMap) returns (ok: bool)
    requires Increasing(entries) && forall i :: 0 <= i < |entries| ==> Valid(entries[i].value)
    requires m.keyval == []
    modifies m
    ensures ok <==> forall i :: 0 <= i < |entries| ==> EncodableEntry(entries[i])
    ensures ok ==> m.keyval == Encoded(entries)
    decreases entries, 0
  {
    ghost var encoded := Encoded(entries[..0]);
    for i := 0 to |entries|
      invariant forall j :: 0 <= j < i ==> EncodableEntry(entries[j])
      invariant m.keyval == encoded && encoded == Encoded(entries[..i]) && Increasing(encoded)
    {
      EncodedSnoc(entries, i);
      ok := SerializeEntry(entries[i], m);
      if !ok {
        return;
      }
      encoded := Encoded(entries[..i + 1]);
    }
    assert entries[..|entries|] == entries;
    return true;
  }

  method SerializeDict(entries: seq<Entry<Value>>, w: Writer) returns (ok: bool)
    requires Valid(Dict(entries))
    modifies w
    ensures ok <==> Encodable(Dict(entries))
    ensures ok ==> w.out == old(w.out) + Encode(Dict(entries))
    decreases entries, 1
  {
    w.Write(['d' as int]);
    var m := new SerializeMap();
    ok := SerializeEntries(entries, m);
    if ok {
      EntriesAreEmitted(entries);
      m.End(w);
      Grouped(old(w.out), ['d' as int], EncodeEntries(entries), ['e' as int]);
    }
  }

  /** Serialization succeeds exactly when every key is UTF-8, and writes the wire form. */
  method Serialize(v: Value, w: Writer) returns (ok: bool)
    requires Valid(v)
    modifies w
    ensures ok <==> Encodable(v)
    ensures ok ==> w.out == old(w.out) + Encode(v)
    decreases v, 2
  {
    match v {
      case Integer(i) =>
        w.Write(['i' as int] + Signed(i) + ['e' as int]);
      case UInteger(u) =>
        w.Write(['i' as int] + Show(u) + ['e' as int]);
      case ByteString(bytes) =>
        ConcatAssoc(w.out, Show(|bytes|) + [':' as int], bytes);
        w.Write(Show(|bytes|) + [':' as int]);
        w.Write(bytes);
      case Array(items) =>
        Grouped(w.out, ['l' as int], EncodeItems(items), ['e' as int]);
        w.Write(['l' as int]);
        ok := SerializeItems(items, w);
        if !ok {
          return;
        }
        w.Write(['e' as int]);
      case Dict(entries) =>
        ok := SerializeDict(entries, w);
        return;
    }
    return true;
  }

  // ---- Deserializing values

  datatype Result = Value(value: Value) | Error(error: Error)

  /** `r` and the tokenizer are as decoder result `d` says. */
  ghost predicate Follows(d: Decoded, r: Result, tz: T.Tokenizer)
    reads tz
  {
    match d
    case Ok(v, rest) => r == Result.Value(v) && tz.Valid() && tz.Unread() == rest
    case Err(e) => r == Result.Error(e)
  }

  /** The next token of the stream, which is taken unless it is only peeked at. */
  method NextToken(tz: T.Tokenizer, isPeek: bool) returns (item: T.Item)
    requires tz.Valid()
    modifies tz
    ensures var u := old(tz.Unread());
            && tz.Valid() && (item.Item? <==> Peek(u).Item?)
            && (if item.Item? then item == Peek(u) else Refusal(item) == Refusal(Peek(u)))
            && tz.Unread() == if item.Item? && !isPeek then u[item.length..] else u
    ensures old(tz.scratch) == [] && item.Item? ==> tz.scratch == []
  {
    item := tz.Next(isPeek);
  }

  method DeserializeAny(tz: T.Tokenizer) returns (r: Result)
    requires tz.Valid()
    modifies tz
    ensures Follows(DecodeValue(old(tz.Unread())), r, tz)
    ensures r.Value? && old(tz.scratch) == [] ==> tz.scratch == []
    decreases |tz.Unread()|, 1
  {
    ghost var s := tz.Unread();
    var item := NextToken(tz, true);
    if !item.Item? {
      return Result.Error(Refusal(item));
    }
    match item.node {
      case DictionaryStart => r := DeserializeMap(tz);
      case ArrayStart => r := DeserializeSeq(tz);
      case ContainerEnd => r := Result.Error(Panic);
      case Integer(_) =>
        var again := NextToken(tz, false);
        var digits := again.node.digits;
        if !AllDigits(digits) || digits == [] || NumeralValue(digits) > U64_MAX {
          return Result.Error(Panic);
        }
        r := Result.Value(UInteger(NumeralValue(digits)));
      case ByteString(bytes) =>
        var _ := NextToken(tz, false);
        r := Result.Value(ByteString(bytes));
    }
  }

  method DeserializeSeq(tz: T.Tokenizer) returns (r: Result)
    requires tz.Valid() && Peek(tz.Unread()) == T.Item(1, T.ArrayStart)
    modifies tz
    ensures Follows(DecodeItems(old(tz.Unread())[1..], []), r, tz)
    ensures r.Value? && old(tz.scratch) == [] ==> tz.scratch == []
    decreases |tz.Unread()|, 0
  {
    ghost var size := |tz.Unread()|;
    var start := NextToken(tz, false);
    ghost var s := tz.Unread();
    var values: seq<Value> := [];
    while true
      invariant tz.Valid() && |tz.Unread()| < size
      invariant old(tz.scratch) == [] ==> tz.scratch == []
      invariant DecodeItems(tz.Unread(), values) == DecodeItems(s, [])
      decreases |tz.Unread()|
    {
      var item := NextToken(tz, true);
      if !item.Item? {
        return Result.Error(Refusal(item));
      }
      if item.node.ContainerEnd? {
        break;
      }
      var element := DeserializeAny(tz);
      if element.Error? {
        return element;
      }
      values := values + [element.value];
    }
    var end := NextToken(tz, false);
    return Result.Value(Array(values));
  }

  method DeserializeMap(tz: T.Tokenizer) returns (r: Result)
    requires tz.Valid() && Peek(tz.Unread()) == T.Item(1, T.DictionaryStart)
    modifies tz
    ensures Follows(DecodeEntries(old(tz.Unread())[1..], []), r, tz)
    ensures r.Value? && old(tz.scratch) == [] ==> tz.scratch == []
    decreases |tz.Unread()|, 0
  {
    ghost var size := |tz.Unread()|;
    var start := NextToken(tz, false);
    ghost var s := tz.Unread();
    var values: seq<Entry<Value>> := [];
    while true
      invariant tz.Valid() && |tz.Unread()| < size
      invariant old(tz.scratch) == [] ==> tz.scratch == []
      invariant DecodeEntries(tz.Unread(), values) == DecodeEntries(s, [])
      decreases |tz.Unread()|
    {
      var item := NextToken(tz, true);
      if !item.Item? {
        return Result.Error(Refusal(item));
      }
      if item.node.ContainerEnd? {
        break;
      }
      if !item.node.ByteString? {
        return Result.Error(ExpectedString);
      }
      var key := NextToken(tz, false);
      var value := DeserializeAny(tz);
      if value.Error? {
        return value;
      }
      values := Insert(values, key.node.data, value.value);
    }
    var end := NextToken(tz, false);
    return Result.Value(Dict(values));
  }

  /** `from_bytes`, whose trailing check looks at the two buffers rather than at what is unread. */
  method ReadDocument(bytes: seq<byte>) returns (r: Result)
    ensures r == match FromBytes(bytes) case Ok(v, _) => Result.Value(v) case Err(e) => Result.Error(e)
  {
    var tz := new T.Tokenizer(bytes);
    r := DeserializeAny(tz);
    if r.Error? {
      return;
    }
    if tz.scratch == [] && tz.data == [] {
      return;
    }
    return Result.Error(Trailing);
  }

  // ---- Both ways

  /** `to_bytes`. */
  method WriteDocument(v: Value) returns (r: Option<seq<byte>>)
    requires Valid(v)
    ensures r == ToBytes(v)
  {
    var w := new Writer();
    var ok := Serialize(v, w);
    if !ok {
      return None;
    }
    assert w.out == Encode(v);
    return Some(w.out);
  }

  /** Reading a document and writing its value again. */
  method Reencode(bytes: seq<byte>) returns (r: Option<seq<byte>>)
    ensures r == Reencoded(bytes)
  {
    var read := ReadDocument(bytes);
    if read.Error? {
      return None;
    }
    DecodedIsClean(bytes);
    r := WriteDocument(read.value);
  }
}
