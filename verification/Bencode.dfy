/** Bencode values, their encoding and their decoding (boss/bencode/src/value.rs, ser/, lib.rs). */
module Bencode {
  import opened Bytes
  import opened Decimal
  import opened SortedMap
  import opened Utf8
  import T = Tokenizer

  datatype Value =
    | Integer(i: int)
    | UInteger(u: nat)
    | ByteString(bytes: seq<byte>)
    | Array(items: seq<Value>)
    | Dict(entries: seq<Entry<Value>>)

  const U64_MAX: nat := T.U64_MAX

  /** What the Rust type can hold: machine integers, and dictionaries in key order without repeats. */
  predicate Valid(v: Value)
  {
    match v
    case Integer(i) => -0x8000_0000_0000_0000 <= i < 0x8000_0000_0000_0000
    case UInteger(u) => u <= U64_MAX
    case ByteString(bytes) => |bytes| <= U64_MAX
    case Array(items) => forall i :: 0 <= i < |items| ==> Valid(items[i])
    case Dict(entries) =>
      && Increasing(entries)
      && forall i :: 0 <= i < |entries| ==> |entries[i].key| <= U64_MAX && Valid(entries[i].value)
  }

  /** Every key, at every depth, is UTF-8: the serializer refuses others. */
  predicate Encodable(v: Value)
  {
    match v
    case Array(items) => forall i :: 0 <= i < |items| ==> Encodable(items[i])
    case Dict(entries) => forall i :: 0 <= i < |entries| ==> IsUtf8(entries[i].key) && Encodable(entries[i].value)
    case _ => true
  }

  predicate NonNegative(v: Value)
  {
    match v
    case Integer(i) => i >= 0
    case Array(items) => forall i :: 0 <= i < |items| ==> NonNegative(items[i])
    case Dict(entries) => forall i :: 0 <= i < |entries| ==> NonNegative(entries[i].value)
    case _ => true
  }

  // ---- Wire form

  function Signed(i: int): seq<byte>
  {
    if i < 0 then ['-' as int] + Show(-i) else Show(i)
  }

  function StringBytes(s: seq<byte>): seq<byte>
  {
    Show(|s|) + [':' as int] + s
  }

  function Encode(v: Value): seq<byte>
  {
    match v
    case Integer(i) => ['i' as int] + Signed(i) + ['e' as int]
    case UInteger(u) => ['i' as int] + Show(u) + ['e' as int]
    case ByteString(bytes) => StringBytes(bytes)
    case Array(items) => ['l' as int] + EncodeItems(items) + ['e' as int]
    case Dict(entries) => ['d' as int] + EncodeEntries(entries) + ['e' as int]
  }

  function EncodeItems(items: seq<Value>): seq<byte>
  {
    if items == [] then [] else Encode(items[0]) + EncodeItems(items[1..])
  }

  function EncodeEntries(entries: seq<Entry<Value>>): seq<byte>
  {
    if entries == [] then []
    else StringBytes(entries[0].key) + Encode(entries[0].value) + EncodeEntries(entries[1..])
  }

  // ---- Decoding

  datatype Error = Truncated | ExpectedString | LengthOverflow | Trailing | Panic

  datatype Decoded = Ok(value: Value, rest: seq<byte>) | Err(error: Error)

  /** How a token that is not an item ends the decoding. */
  function Refusal(item: T.Item): Error
    requires !item.Item?
  {
    match item
    case Incomplete(_) => Truncated
    case Failed => LengthOverflow
    case Panicked => Panic
  }

  function Peek(s: seq<byte>): (r: T.Item)
    ensures r.Item? ==> 0 < r.length <= |s|
  {
    if s == [] then T.Incomplete(1) else T.ParseItem(s)
  }

  /** `deserialize_any`. */
  function DecodeValue(s: seq<byte>): (r: Decoded)
    ensures r.Ok? ==> |r.rest| < |s|
    decreases |s|, 0
  {
    var item := Peek(s);
    if !item.Item? then Err(Refusal(item))
    else
      var rest := s[item.length..];
      match item.node
      case DictionaryStart => DecodeEntries(rest, [])
      case ArrayStart => DecodeItems(rest, [])
      case ContainerEnd => Err(Panic)
      case Integer(digits) =>
        if !AllDigits(digits) || digits == [] || NumeralValue(digits) > U64_MAX then Err(Panic)
        else Ok(UInteger(NumeralValue(digits)), rest)
      case ByteString(bytes) => Ok(ByteString(bytes), rest)
  }

  /** The rest of a list whose items so far are `acc`. */
  function DecodeItems(s: seq<byte>, acc: seq<Value>): (r: Decoded)
    ensures r.Ok? ==> |r.rest| < |s|
    decreases |s|, 1
  {
    var item := Peek(s);
    if !item.Item? then Err(Refusal(item))
    else if item.node.ContainerEnd? then Ok(Array(acc), s[item.length..])
    else
      match DecodeValue(s)
      case Err(e) => Err(e)
      case Ok(v, rest) => DecodeItems(rest, acc + [v])
  }

  /** The rest of a dictionary whose entries so far are `acc`; a repeated key is overwritten. */
  function DecodeEntries(s: seq<byte>, acc: seq<Entry<Value>>): (r: Decoded)
    ensures r.Ok? ==> |r.rest| < |s|
    decreases |s|, 1
  {
    var item := Peek(s);
    if !item.Item? then Err(Refusal(item))
    else
      match item.node
      case ContainerEnd => Ok(Dict(acc), s[item.length..])
      case ByteString(key) =>
        (match DecodeValue(s[item.length..])
         case Err(e) => Err(e)
         case Ok(v, rest) => DecodeEntries(rest, Insert(acc, key, v)))
      case _ => Err(ExpectedString)
  }

  /** `from_bytes`: one value and nothing after it. */
  function FromBytes(s: seq<byte>): Decoded
  {
    match DecodeValue(s)
    case Err(e) => Err(e)
    case Ok(v, rest) => if rest == [] then Ok(v, []) else Err(Trailing)
  }

  // ---- Tokens of an encoding

  lemma IntegerToken(digits: seq<byte>, sign: seq<byte>, tail: seq<byte>)
    requires AllDigits(digits) && digits != [] && (sign == [] || sign == ['-' as int])
    ensures var s := ['i' as int] + (sign + digits) + ['e' as int] + tail;
            T.ParseItem(s) == T.Item(2 + |sign| + |digits|, T.Integer(digits))
            && s[2 + |sign| + |digits|..] == tail
  {
    var s := ['i' as int] + (sign + digits) + ['e' as int] + tail;
    var pos := 1 + |sign| + |digits|;
    assert s[..pos] == ['i' as int] + (sign + digits);
    T.IndexOfUnique(s, 'e' as int, pos);
    assert s[1..pos] == sign + digits;
    assert T.StripMinus(sign + digits) == digits;
  }

  lemma StringToken(bytes: seq<byte>, tail: seq<byte>)
    requires |bytes| <= U64_MAX
    ensures var s := StringBytes(bytes) + tail;
            T.ParseItem(s) == T.Item(|StringBytes(bytes)|, T.ByteString(bytes))
            && s[|StringBytes(bytes)|..] == tail
  {
    var s := StringBytes(bytes) + tail;
    var digits := Show(|bytes|);
    var pos := |digits|;
    assert s[..pos] == digits && s[pos] == ':' as int && s[0] == digits[0];
    T.IndexOfUnique(s, ':' as int, pos);
    ShowValue(|bytes|);
    assert s[pos + 1..] == bytes + tail;
    assert (bytes + tail)[..|bytes|] == bytes;
  }

  lemma MarkToken(mark: byte, node: T.Node, tail: seq<byte>)
    requires (mark, node) in {('d' as int, T.DictionaryStart), ('l' as int, T.ArrayStart), ('e' as int, T.ContainerEnd)}
    ensures T.ParseItem([mark] + tail) == T.Item(1, node) && ([mark] + tail)[1..] == tail
  {
  }

  // ---- Round trip

  /** What comes back: the sign of an integer is lost, and every integer is unsigned. */
  function Normal(v: Value): Value
  {
    match v
    case Integer(i) => UInteger(if i < 0 then -i else i)
    case Array(items) => Array(NormalItems(items))
    case Dict(entries) => Dict(NormalEntries(entries))
    case _ => v
  }

  function NormalItems(items: seq<Value>): (r: seq<Value>)
    ensures |r| == |items|
    ensures forall i :: 0 <= i < |items| ==> r[i] == Normal(items[i])
  {
    if items == [] then [] else [Normal(items[0])] + NormalItems(items[1..])
  }

  function NormalEntries(entries: seq<Entry<Value>>): (r: seq<Entry<Value>>)
    ensures |r| == |entries|
    ensures forall i :: 0 <= i < |entries| ==> r[i] == Entry(entries[i].key, Normal(entries[i].value))
  {
    if entries == [] then []
    else [Entry(entries[0].key, Normal(entries[0].value))] + NormalEntries(entries[1..])
  }

  /** The first token of an encoded value is not an end mark. */
  lemma FirstToken(v: Value, tail: seq<byte>)
    requires Valid(v)
    ensures Encode(v) != [] && Peek(Encode(v) + tail).Item? && !Peek(Encode(v) + tail).node.ContainerEnd?
  {
    match v {
      case Integer(i) =>
        var sign := if i < 0 then ['-' as int] else [];
        var digits := Show(if i < 0 then -i else i);
        assert Encode(v) + tail == ['i' as int] + (sign + digits) + ['e' as int] + tail;
        IntegerToken(digits, sign, tail);
      case UInteger(u) =>
        assert [] + Show(u) == Show(u);
        IntegerToken(Show(u), [], tail);
      case ByteString(bytes) => StringToken(bytes, tail);
      case Array(_) =>
      case Dict(_) =>
    }
  }

  lemma DecodeNumber(n: nat, sign: seq<byte>, tail: seq<byte>)
    requires n <= U64_MAX && (sign == [] || sign == ['-' as int])
    ensures DecodeValue(['i' as int] + (sign + Show(n)) + ['e' as int] + tail) == Ok(UInteger(n), tail)
  {
    IntegerToken(Show(n), sign, tail);
    ShowValue(n);
  }

  lemma DecodeString(bytes: seq<byte>, tail: seq<byte>)
    requires |bytes| <= U64_MAX
    ensures DecodeValue(StringBytes(bytes) + tail) == Ok(ByteString(bytes), tail)
  {
    StringToken(bytes, tail);
  }

  lemma DecodeScalar(v: Value, tail: seq<byte>)
    requires Valid(v) && !v.Array? && !v.Dict?
    ensures DecodeValue(Encode(v) + tail) == Ok(Normal(v), tail)
  {
    match v {
      case Integer(i) =>
        var sign, n := if i < 0 then ['-' as int] else [], if i < 0 then -i else i;
        assert sign + Show(n) == Signed(i);
        DecodeNumber(n, sign, tail);
      case UInteger(u) =>
        assert [] + Show(u) == Show(u);
        DecodeNumber(u, [], tail);
      case ByteString(bytes) => DecodeString(bytes, tail);
    }
  }

  lemma DecodeContainer(s: seq<byte>)
    ensures DecodeValue(['l' as int] + s) == DecodeItems(s, [])
    ensures DecodeValue(['d' as int] + s) == DecodeEntries(s, [])
  {
    MarkToken('l' as int, T.ArrayStart, s);
    MarkToken('d' as int, T.DictionaryStart, s);
  }

  lemma DecodeEnd(tail: seq<byte>, items: seq<Value>, entries: seq<Entry<Value>>)
    ensures DecodeItems([] + ['e' as int] + tail, items) == Ok(Array(items), tail)
    ensures DecodeEntries([] + ['e' as int] + tail, entries) == Ok(Dict(entries), tail)
  {
    assert [] + ['e' as int] + tail == ['e' as int] + tail;
    MarkToken('e' as int, T.ContainerEnd, tail);
  }

  lemma Bracketed(mark: byte, body: seq<byte>, tail: seq<byte>)
    ensures [mark] + body + ['e' as int] + tail == [mark] + (body + ['e' as int] + tail)
  {
  }

  lemma DecodeList(body: seq<byte>, items: seq<Value>, tail: seq<byte>)
    requires DecodeItems(body + ['e' as int] + tail, []) == Ok(Array([] + items), tail)
    ensures DecodeValue(['l' as int] + body + ['e' as int] + tail) == Ok(Array(items), tail)
  {
    Bracketed('l' as int, body, tail);
    DecodeContainer(body + ['e' as int] + tail);
    assert [] + items == items;
  }

  lemma DecodeDictionary(body: seq<byte>, entries: seq<Entry<Value>>, tail: seq<byte>)
    requires DecodeEntries(body + ['e' as int] + tail, []) == Ok(Dict([] + entries), tail)
    ensures DecodeValue(['d' as int] + body + ['e' as int] + tail) == Ok(Dict(entries), tail)
  {
    Bracketed('d' as int, body, tail);
    DecodeContainer(body + ['e' as int] + tail);
    assert [] + entries == entries;
  }

  lemma {:induction false} DecodeEncode(v: Value, tail: seq<byte>)
    requires Valid(v)
    ensures DecodeValue(Encode(v) + tail) == Ok(Normal(v), tail)
    decreases v, 0
  {
    match v {
      case Array(items) =>
        DecodeEncodeItems(items, [], tail);
        DecodeList(EncodeItems(items), NormalItems(items), tail);
      case Dict(entries) =>
        assert [] + entries == entries;
        DecodeEncodeEntries(entries, [], tail);
        DecodeDictionary(EncodeEntries(entries), NormalEntries(entries), tail);
      case _ => DecodeScalar(v, tail);
    }
  }

  lemma DecodeItem(v: Value, more: seq<byte>, acc: seq<Value>)
    requires Valid(v) && DecodeValue(Encode(v) + more) == Ok(Normal(v), more)
    ensures DecodeItems(Encode(v) + more, acc) == DecodeItems(more, acc + [Normal(v)])
  {
    FirstToken(v, more);
  }

  lemma Regroup(a: seq<byte>, b: seq<byte>, c: seq<byte>, d: seq<byte>, e: seq<byte>)
    ensures a + b + c + d + e == a + (b + (c + d + e))
  {
  }

  lemma ItemsCons(items: seq<Value>, acc: seq<Value>, tail: seq<byte>)
    requires items != []
    ensures EncodeItems(items) + ['e' as int] + tail
         == Encode(items[0]) + (EncodeItems(items[1..]) + ['e' as int] + tail)
    ensures acc + NormalItems(items) == acc + [Normal(items[0])] + NormalItems(items[1..])
  {
    Regroup([], Encode(items[0]), EncodeItems(items[1..]), ['e' as int], tail);
    ConcatAssoc(acc, [Normal(items[0])], NormalItems(items[1..]));
  }

  lemma {:induction false} DecodeEncodeItems(items: seq<Value>, acc: seq<Value>, tail: seq<byte>)
    requires forall i :: 0 <= i < |items| ==> Valid(items[i])
    ensures DecodeItems(EncodeItems(items) + ['e' as int] + tail, acc) == Ok(Array(acc + NormalItems(items)), tail)
    decreases items
  {
    if items == [] {
      DecodeEnd(tail, acc, []);
      assert acc + NormalItems(items) == acc;
    } else {
      var v, more := items[0], EncodeItems(items[1..]) + ['e' as int] + tail;
      ItemsCons(items, acc, tail);
      DecodeEncode(v, more);
      DecodeItem(v, more, acc);
      DecodeEncodeItems(items[1..], acc + [Normal(v)], tail);
    }
  }

  lemma EntryStep(
    t: seq<byte>, length: nat, key: seq<byte>, acc: seq<Entry<Value>>, v: Value, rest: seq<byte>)
    requires Peek(t) == T.Item(length, T.ByteString(key)) && DecodeValue(t[length..]) == Ok(v, rest)
    ensures DecodeEntries(t, acc) == DecodeEntries(rest, Insert(acc, key, v))
  {
  }

  lemma DecodeEntry(key: seq<byte>, s: seq<byte>, acc: seq<Entry<Value>>, v: Value, rest: seq<byte>)
    requires |key| <= U64_MAX && DecodeValue(s) == Ok(v, rest)
    ensures DecodeEntries(StringBytes(key) + s, acc) == DecodeEntries(rest, Insert(acc, key, v))
  {
    StringToken(key, s);
    EntryStep(StringBytes(key) + s, |StringBytes(key)|, key, acc, v, rest);
  }

  lemma EntriesCons(entries: seq<Entry<Value>>, acc: seq<Entry<Value>>, tail: seq<byte>)
    requires entries != []
    ensures var key, v := entries[0].key, entries[0].value;
            && EncodeEntries(entries) + ['e' as int] + tail
               == StringBytes(key) + (Encode(v) + (EncodeEntries(entries[1..]) + ['e' as int] + tail))
            && acc + NormalEntries(entries) == acc + [Entry(key, Normal(v))] + NormalEntries(entries[1..])
  {
    var key, v := entries[0].key, entries[0].value;
    Regroup(StringBytes(key), Encode(v), EncodeEntries(entries[1..]), ['e' as int], tail);
    ConcatAssoc(acc, [Entry(key, Normal(v))], NormalEntries(entries[1..]));
  }

  lemma AppendKeepsOrder(acc: seq<Entry<Value>>, entries: seq<Entry<Value>>, v: Value)
    requires entries != [] && Increasing(acc + entries)
    ensures Insert(acc, entries[0].key, v) == acc + [Entry(entries[0].key, v)]
    ensures Increasing(acc + [Entry(entries[0].key, v)] + entries[1..])
  {
    var all, all' := acc + entries, acc + [Entry(entries[0].key, v)] + entries[1..];
    assert |all| == |all'| && forall i :: 0 <= i < |all| ==> all'[i].key == all[i].key;
    forall i | 0 <= i < |acc|
      ensures LexLess(acc[i].key, entries[0].key)
    {
      assert all[i] == acc[i] && all[|acc|] == entries[0];
    }
    InsertLast(acc, entries[0].key, v);
  }

  /** The first entry is read and goes to the end of the dictionary. */
  lemma FirstEntry(
    entries: seq<Entry<Value>>, acc: seq<Entry<Value>>, tail: seq<byte>, v: Value, more: seq<byte>,
    next: seq<Entry<Value>>)
    requires entries != [] && Increasing(acc + entries) && |entries[0].key| <= U64_MAX && v == entries[0].value
    requires more == EncodeEntries(entries[1..]) + ['e' as int] + tail
    requires DecodeValue(Encode(v) + more) == Ok(Normal(v), more) && next == acc + [Entry(entries[0].key, Normal(v))]
    ensures DecodeEntries(EncodeEntries(entries) + ['e' as int] + tail, acc) == DecodeEntries(more, next)
    ensures Increasing(next + entries[1..]) && acc + NormalEntries(entries) == next + NormalEntries(entries[1..])
  {
    EntriesCons(entries, acc, tail);
    DecodeEntry(entries[0].key, Encode(v) + more, acc, Normal(v), more);
    AppendKeepsOrder(acc, entries, Normal(v));
  }

  lemma {:induction false} DecodeEncodeEntries(entries: seq<Entry<Value>>, acc: seq<Entry<Value>>, tail: seq<byte>)
    requires Increasing(acc + entries)
    requires forall i :: 0 <= i < |entries| ==> |entries[i].key| <= U64_MAX && Valid(entries[i].value)
    ensures DecodeEntries(EncodeEntries(entries) + ['e' as int] + tail, acc)
         == Ok(Dict(acc + NormalEntries(entries)), tail)
    decreases entries
  {
    if entries == [] {
      DecodeEnd(tail, [], acc);
      assert acc + NormalEntries(entries) == acc;
    } else {
      var v, more := entries[0].value, EncodeEntries(entries[1..]) + ['e' as int] + tail;
      var next := acc + [Entry(entries[0].key, Normal(v))];
      DecodeEncode(v, more);
      FirstEntry(entries, acc, tail, v, more, next);
      DecodeEncodeEntries(entries[1..], next, tail);
    }
  }

  /** `to_bytes`: the wire form, unless some key is not UTF-8. */
  function ToBytes(v: Value): Option<seq<byte>>
  {
    if Encodable(v) then Some(Encode(v)) else None
  }

  lemma WireRoundTrip(v: Value)
    requires Valid(v)
    ensures FromBytes(Encode(v)) == Ok(Normal(v), [])
  {
    DecodeEncode(v, []);
    assert Encode(v) + [] == Encode(v);
  }

  /** Writing and reading any value that can be written gives it back up to the sign and type of its integers. */
  lemma RoundTrip(v: Value)
    requires Valid(v)
    ensures match ToBytes(v)
            case Some(s) => Encodable(v) && FromBytes(s) == Ok(Normal(v), [])
            case None => !Encodable(v)
  {
    WireRoundTrip(v);
  }

  /** Equal as documents: `Integer(n)` and `UInteger(n)` are the same number. */
  predicate SameMeaning(v: Value, w: Value)
  {
    match (v, w)
    case (Array(vs), Array(ws)) =>
      |vs| == |ws| && forall i :: 0 <= i < |vs| ==> SameMeaning(vs[i], ws[i])
    case (Dict(es), Dict(fs)) =>
      |es| == |fs| && forall i :: 0 <= i < |es| ==> es[i].key == fs[i].key && SameMeaning(es[i].value, fs[i].value)
    case (Integer(i), UInteger(u)) => i == u
    case (UInteger(u), Integer(i)) => i == u
    case (_, _) => v == w
  }

  /** The round trip keeps the meaning exactly when no integer is negative. */
  lemma {:induction false} MeaningKept(v: Value)
    ensures SameMeaning(v, Normal(v)) <==> NonNegative(v)
  {
    match v {
      case Array(items) =>
        forall i | 0 <= i < |items|
          ensures SameMeaning(items[i], NormalItems(items)[i]) <==> NonNegative(items[i])
        {
          MeaningKept(items[i]);
        }
      case Dict(entries) =>
        forall i | 0 <= i < |entries|
          ensures SameMeaning(entries[i].value, NormalEntries(entries)[i].value) <==> NonNegative(entries[i].value)
        {
          MeaningKept(entries[i].value);
        }
      case _ =>
    }
  }

  // ---- Canonical documents

  lemma {:induction false} NormalEncodes(v: Value)
    requires NonNegative(v)
    ensures Encode(Normal(v)) == Encode(v)
    decreases v, 0
  {
    match v {
      case Array(items) => NormalItemsEncode(items);
      case Dict(entries) => NormalEntriesEncode(entries);
      case _ =>
    }
  }

  lemma {:induction false} NormalItemsEncode(items: seq<Value>)
    requires forall i :: 0 <= i < |items| ==> NonNegative(items[i])
    ensures EncodeItems(NormalItems(items)) == EncodeItems(items)
    decreases items
  {
    if items != [] {
      NormalEncodes(items[0]);
      NormalItemsEncode(items[1..]);
      assert NormalItems(items)[1..] == NormalItems(items[1..]);
    }
  }

  lemma {:induction false} NormalEntriesEncode(entries: seq<Entry<Value>>)
    requires forall i :: 0 <= i < |entries| ==> NonNegative(entries[i].value)
    ensures EncodeEntries(NormalEntries(entries)) == EncodeEntries(entries)
    decreases entries
  {
    if entries != [] {
      NormalEncodes(entries[0].value);
      NormalEntriesEncode(entries[1..]);
      assert NormalEntries(entries)[1..] == NormalEntries(entries[1..]);
    }
  }

  lemma {:induction false} NormalEncodable(v: Value)
    ensures Encodable(Normal(v)) <==> Encodable(v)
  {
    match v {
      case Array(items) =>
        forall i | 0 <= i < |items|
          ensures Encodable(NormalItems(items)[i]) <==> Encodable(items[i])
        {
          NormalEncodable(items[i]);
        }
      case Dict(entries) =>
        forall i | 0 <= i < |entries|
          ensures Encodable(NormalEntries(entries)[i].value) <==> Encodable(entries[i].value)
        {
          NormalEncodable(entries[i].value);
        }
      case _ =>
    }
  }

  /** What reading a document and writing its value again gives; None where either refuses. */
  function Reencoded(s: seq<byte>): Option<seq<byte>>
  {
    match FromBytes(s)
    case Ok(v, _) => ToBytes(v)
    case Err(_) => None
  }

  /** A written document without negative integers comes back byte for byte. */
  lemma CanonicalDocument(v: Value)
    requires Valid(v) && NonNegative(v)
    ensures match ToBytes(v)
            case Some(s) => Reencoded(s) == Some(s)
            case None => !Encodable(v) && Reencoded(Encode(v)).None?
  {
    WireRoundTrip(v);
    NormalEncodes(v);
    NormalEncodable(v);
  }

  // ---- Everything the decoder accepts is valid

  predicate Clean(v: Value)
  {
    Valid(v) && Normal(v) == v
  }

  predicate CleanEntries(entries: seq<Entry<Value>>)
  {
    && Increasing(entries)
    && forall e :: e in entries ==> |e.key| <= U64_MAX && Clean(e.value)
  }

  lemma CleanArray(items: seq<Value>)
    requires forall i :: 0 <= i < |items| ==> Clean(items[i])
    ensures Clean(Array(items))
  {
    assert NormalItems(items) == items;
  }

  lemma CleanDict(entries: seq<Entry<Value>>)
    requires CleanEntries(entries)
    ensures Clean(Dict(entries))
  {
    forall i | 0 <= i < |entries|
      ensures NormalEntries(entries)[i] == entries[i]
    {
      assert entries[i] in entries;
    }
    assert NormalEntries(entries) == entries;
  }

  lemma InsertClean(acc: seq<Entry<Value>>, key: seq<byte>, v: Value)
    requires CleanEntries(acc) && |key| <= U64_MAX && Clean(v)
    ensures CleanEntries(Insert(acc, key, v))
  {
    InsertKeepsOrder(acc, key, v);
    forall e | e in Insert(acc, key, v)
      ensures |e.key| <= U64_MAX && Clean(e.value)
    {
      InsertMembers(acc, key, v, e);
    }
  }

  lemma StringLength(s: seq<byte>)
    requires s != [] && T.ParseItem(s).Item? && T.ParseItem(s).node.ByteString?
    ensures |T.ParseItem(s).node.data| <= U64_MAX
  {
  }

  lemma {:induction false} DecodedIsClean(s: seq<byte>)
    requires DecodeValue(s).Ok?
    ensures Clean(DecodeValue(s).value)
    decreases |s|, 0
  {
    var item := Peek(s);
    var rest := s[item.length..];
    match item.node {
      case ArrayStart => DecodedItemsAreClean(rest, []);
      case DictionaryStart => DecodedEntriesAreClean(rest, []);
      case ByteString(_) => StringLength(s);
      case _ =>
    }
  }

  lemma {:induction false} DecodedItemsAreClean(s: seq<byte>, acc: seq<Value>)
    requires DecodeItems(s, acc).Ok? && forall i :: 0 <= i < |acc| ==> Clean(acc[i])
    ensures Clean(DecodeItems(s, acc).value)
    decreases |s|, 1
  {
    if Peek(s).node.ContainerEnd? {
      CleanArray(acc);
    } else {
      DecodedIsClean(s);
      DecodedItemsAreClean(DecodeValue(s).rest, acc + [DecodeValue(s).value]);
    }
  }

  lemma {:induction false} DecodedEntriesAreClean(s: seq<byte>, acc: seq<Entry<Value>>)
    requires DecodeEntries(s, acc).Ok? && CleanEntries(acc)
    ensures Clean(DecodeEntries(s, acc).value)
    decreases |s|, 1
  {
    var item := Peek(s);
    if item.node.ContainerEnd? {
      CleanDict(acc);
    } else {
      StringLength(s);
      var t := s[item.length..];
      DecodedIsClean(t);
      InsertClean(acc, item.node.data, DecodeValue(t).value);
      DecodedEntriesAreClean(DecodeValue(t).rest, Insert(acc, item.node.data, DecodeValue(t).value));
    }
  }

  lemma {:induction false} NormalIsNonNegative(v: Value)
    requires Normal(v) == v
    ensures NonNegative(v)
  {
    match v {
      case Array(items) =>
        forall i | 0 <= i < |items|
          ensures NonNegative(items[i])
        {
          assert NormalItems(items)[i] == items[i];
          NormalIsNonNegative(items[i]);
        }
      case Dict(entries) =>
        forall i | 0 <= i < |entries|
          ensures NonNegative(entries[i].value)
        {
          assert NormalEntries(entries)[i] == entries[i];
          NormalIsNonNegative(entries[i].value);
        }
      case _ =>
    }
  }

  /** Re-encoding gives back the very same bytes exactly for the documents that the encoder itself writes. */
  lemma SameBytesExactly(s: seq<byte>)
    ensures Reencoded(s) == Some(s)
       <==> exists v :: Valid(v) && NonNegative(v) && Encodable(v) && Encode(v) == s
  {
    if Reencoded(s) == Some(s) {
      var v := FromBytes(s).value;
      DecodedIsClean(s);
      NormalIsNonNegative(v);
      assert Valid(v) && NonNegative(v) && Encodable(v) && Encode(v) == s;
    }
    forall v | Valid(v) && NonNegative(v) && Encodable(v) && Encode(v) == s
      ensures Reencoded(s) == Some(s)
    {
      CanonicalDocument(v);
    }
  }

  /** Re-encoding succeeds exactly on accepted documents with UTF-8 keys, and keeps their value. */
  lemma CanonicalForm(s: seq<byte>)
    ensures Reencoded(s).Some? <==> FromBytes(s).Ok? && Encodable(FromBytes(s).value)
    ensures Reencoded(s).Some? ==> FromBytes(Reencoded(s).value) == FromBytes(s)
  {
    if FromBytes(s).Ok? {
      DecodedIsClean(s);
      WireRoundTrip(FromBytes(s).value);
    }
  }

  /** The decoder takes keys that the encoder refuses: "d1:", the byte 255, "0:e". */
  lemma RefusedDocument()
    ensures var s := [100, 49, 58, 255, 48, 58, 101];
            FromBytes(s) == Ok(Dict([Entry([255], ByteString([]))]), []) && Reencoded(s).None?
  {
    var entries := [Entry([255], ByteString([]))];
    var v := Dict(entries);
    assert entries[1..] == [];
    assert Show(1) == [49] && Show(0) == [48];
    assert Encode(v) == [100, 49, 58, 255, 48, 58, 101];
    WireRoundTrip(v);
    assert NormalEntries(entries) == entries;
    assert !IsUtf8([255]);
  }

  // ---- What comes after a value, and what is missing of one

  function WithMore(d: Decoded, t: seq<byte>): Decoded
  {
    match d
    case Ok(v, rest) => Ok(v, rest + t)
    case Err(e) => Err(e)
  }

  lemma PeekIsStable(s: seq<byte>, t: seq<byte>)
    ensures !Peek(s).Incomplete? ==> Peek(s + t) == Peek(s)
    ensures Peek(s).Item? ==> (s + t)[Peek(s).length..] == s[Peek(s).length..] + t
  {
    if s != [] {
      T.ItemIsStable(s, t);
    }
  }

  /** Bytes that follow change no answer but a missing one, and are left over. */
  lemma {:induction false} ValueIsStable(s: seq<byte>, t: seq<byte>)
    requires DecodeValue(s) != Err(Truncated)
    ensures DecodeValue(s + t) == WithMore(DecodeValue(s), t)
    decreases |s|, 0
  {
    PeekIsStable(s, t);
    var item := Peek(s);
    if item.Item? {
      match item.node {
        case DictionaryStart => EntriesAreStable(s[item.length..], [], t);
        case ArrayStart => ItemsAreStable(s[item.length..], [], t);
        case _ =>
      }
    }
  }

  lemma {:induction false} ItemsAreStable(s: seq<byte>, acc: seq<Value>, t: seq<byte>)
    requires DecodeItems(s, acc) != Err(Truncated)
    ensures DecodeItems(s + t, acc) == WithMore(DecodeItems(s, acc), t)
    decreases |s|, 1
  {
    PeekIsStable(s, t);
    var item := Peek(s);
    if item.Item? && !item.node.ContainerEnd? {
      ValueIsStable(s, t);
      var d := DecodeValue(s);
      if d.Ok? {
        ItemsAreStable(d.rest, acc + [d.value], t);
      }
    }
  }

  lemma {:induction false} EntriesAreStable(s: seq<byte>, acc: seq<Entry<Value>>, t: seq<byte>)
    requires DecodeEntries(s, acc) != Err(Truncated)
    ensures DecodeEntries(s + t, acc) == WithMore(DecodeEntries(s, acc), t)
    decreases |s|, 1
  {
    PeekIsStable(s, t);
    var item := Peek(s);
    if item.Item? && item.node.ByteString? {
      ValueIsStable(s[item.length..], t);
      var d := DecodeValue(s[item.length..]);
      if d.Ok? {
        EntriesAreStable(d.rest, Insert(acc, item.node.data, d.value), t);
      }
    }
  }

  /** No accepted document begins another: anything after the value is refused as trailing. */
  lemma TrailingIsRefused(s: seq<byte>, t: seq<byte>)
    requires FromBytes(s).Ok? && t != []
    ensures FromBytes(s + t) == Err(Trailing)
  {
    ValueIsStable(s, t);
    assert [] + t == t;
  }

  /** A document cut anywhere is refused as truncated. */
  lemma CutDocument(s: seq<byte>, k: nat)
    requires FromBytes(s).Ok? && k < |s|
    ensures FromBytes(s[..k]) == Err(Truncated)
  {
    if DecodeValue(s[..k]) != Err(Truncated) {
      assert s[..k] + s[k..] == s;
      ValueIsStable(s[..k], s[k..]);
    }
  }

  /** Both for what the writer writes. */
  lemma WholeDocumentsOnly(v: Value, more: seq<byte>, k: nat)
    requires Valid(v) && more != [] && k < |Encode(v)|
    ensures FromBytes(Encode(v) + more) == Err(Trailing) && FromBytes(Encode(v)[..k]) == Err(Truncated)
  {
    WireRoundTrip(v);
    TrailingIsRefused(Encode(v), more);
    CutDocument(Encode(v), k);
  }

  // ---- Dictionaries as they come: keys in any order, some more than once

  function InsertAll(acc: seq<Entry<Value>>, pairs: seq<Entry<Value>>): seq<Entry<Value>>
    decreases |pairs|
  {
    if pairs == [] then acc else InsertAll(Insert(acc, pairs[0].key, Normal(pairs[0].value)), pairs[1..])
  }

  lemma PairIsInserted(key: seq<byte>, v: Value, more: seq<byte>, acc: seq<Entry<Value>>)
    requires |key| <= U64_MAX && Valid(v)
    ensures DecodeEntries(StringBytes(key) + (Encode(v) + more), acc)
         == DecodeEntries(more, Insert(acc, key, Normal(v)))
  {
    DecodeEncode(v, more);
    DecodeEntry(key, Encode(v) + more, acc, Normal(v), more);
  }

  lemma {:induction false} PairsAreInserted(pairs: seq<Entry<Value>>, acc: seq<Entry<Value>>, tail: seq<byte>)
    requires forall i :: 0 <= i < |pairs| ==> |pairs[i].key| <= U64_MAX && Valid(pairs[i].value)
    ensures DecodeEntries(EncodeEntries(pairs) + ['e' as int] + tail, acc) == Ok(Dict(InsertAll(acc, pairs)), tail)
    decreases |pairs|
  {
    if pairs == [] {
      DecodeEnd(tail, [], acc);
    } else {
      var key, v := pairs[0].key, pairs[0].value;
      EntriesCons(pairs, acc, tail);
      PairIsInserted(key, v, EncodeEntries(pairs[1..]) + ['e' as int] + tail, acc);
      PairsAreInserted(pairs[1..], Insert(acc, key, Normal(v)), tail);
    }
  }

  /** Pair `i` is the last one for its key. */
  predicate IsLast(pairs: seq<Entry<Value>>, i: int)
  {
    0 <= i < |pairs| && forall j :: i < j < |pairs| ==> pairs[j].key != pairs[i].key
  }

  ghost predicate LastOf(pairs: seq<Entry<Value>>, e: Entry<Value>)
  {
    exists i :: IsLast(pairs, i) && e == Entry(pairs[i].key, Normal(pairs[i].value))
  }

  lemma LastOfCons(pairs: seq<Entry<Value>>, e: Entry<Value>)
    requires pairs != []
    ensures LastOf(pairs, e) <==>
              LastOf(pairs[1..], e)
              || (e == Entry(pairs[0].key, Normal(pairs[0].value))
                  && forall j :: 0 < j < |pairs| ==> pairs[j].key != pairs[0].key)
  {
    if LastOf(pairs, e) {
      var i :| IsLast(pairs, i) && e == Entry(pairs[i].key, Normal(pairs[i].value));
      if i > 0 {
        assert IsLast(pairs[1..], i - 1);
      }
    }
    if LastOf(pairs[1..], e) {
      var i :| IsLast(pairs[1..], i) && e == Entry(pairs[1..][i].key, Normal(pairs[1..][i].value));
      assert forall j :: 0 < j < |pairs| ==> pairs[j] == pairs[1..][j - 1];
      assert IsLast(pairs, i + 1);
    }
    if e == Entry(pairs[0].key, Normal(pairs[0].value))
       && forall j :: 0 < j < |pairs| ==> pairs[j].key != pairs[0].key {
      assert IsLast(pairs, 0);
    }
  }

  lemma {:induction false} InsertAllMembers(acc: seq<Entry<Value>>, pairs: seq<Entry<Value>>, e: Entry<Value>)
    requires Increasing(acc)
    ensures Increasing(InsertAll(acc, pairs))
    ensures e in InsertAll(acc, pairs) <==>
              LastOf(pairs, e) || (e in acc && forall j :: 0 <= j < |pairs| ==> pairs[j].key != e.key)
    decreases |pairs|
  {
    if pairs != [] {
      var key, v := pairs[0].key, Normal(pairs[0].value);
      InsertKeepsOrder(acc, key, v);
      InsertMembers(acc, key, v, e);
      InsertAllMembers(Insert(acc, key, v), pairs[1..], e);
      LastOfCons(pairs, e);
      assert forall j :: 0 < j < |pairs| ==> pairs[j] == pairs[1..][j - 1];
      assert forall j :: 0 <= j < |pairs| - 1 ==> pairs[1..][j] == pairs[j + 1];
    }
  }

  lemma PlainDictionary(body: seq<byte>, entries: seq<Entry<Value>>, tail: seq<byte>)
    requires DecodeEntries(body + [101] + tail, []) == Ok(Dict(entries), tail)
    ensures DecodeValue([100] + body + [101] + tail) == Ok(Dict(entries), tail)
  {
    assert [] + entries == entries;
    DecodeDictionary(body, entries, tail);
  }

  lemma ReadsPairs(pairs: seq<Entry<Value>>, tail: seq<byte>)
    requires forall i :: 0 <= i < |pairs| ==> |pairs[i].key| <= U64_MAX && Valid(pairs[i].value)
    ensures DecodeValue([100] + EncodeEntries(pairs) + [101] + tail) == Ok(Dict(InsertAll([], pairs)), tail)
  {
    PairsAreInserted(pairs, [], tail);
    PlainDictionary(EncodeEntries(pairs), InsertAll([], pairs), tail);
  }

  lemma InsertedAre(pairs: seq<Entry<Value>>, entries: seq<Entry<Value>>)
    requires entries == InsertAll([], pairs)
    ensures Increasing(entries) && forall e :: e in entries <==> LastOf(pairs, e)
  {
    forall e
      ensures Increasing(entries) && (e in entries <==> LastOf(pairs, e))
    {
      InsertAllMembers([], pairs, e);
    }
    InsertAllMembers([], pairs, Entry([], UInteger(0)));
  }

  /** A dictionary is read whatever the order of its keys, in key order, each with the value that came last for it. */
  lemma LastValueWins(pairs: seq<Entry<Value>>, tail: seq<byte>) returns (entries: seq<Entry<Value>>)
    requires forall i :: 0 <= i < |pairs| ==> |pairs[i].key| <= U64_MAX && Valid(pairs[i].value)
    ensures DecodeValue([100] + EncodeEntries(pairs) + [101] + tail) == Ok(Dict(entries), tail)
    ensures Increasing(entries) && forall e :: e in entries <==> LastOf(pairs, e)
  {
    entries := InsertAll([], pairs);
    ReadsPairs(pairs, tail);
    InsertedAre(pairs, entries);
  }

  // ---- The format in ASCII, and what is refused

  lemma OneEntry(e: Entry<Value>)
    ensures EncodeEntries([e]) == StringBytes(e.key) + Encode(e.value)
  {
    assert [e][1..] == [];
    assert EncodeEntries([e]) == StringBytes(e.key) + Encode(e.value) + [];
  }

  /** i42e and 4:spam */
  lemma AsciiScalars()
    ensures Encode(UInteger(42)) == [105, 52, 50, 101] && Encode(Integer(-3)) == [105, 45, 51, 101]
    ensures StringBytes([115, 112, 97, 109]) == [52, 58, 115, 112, 97, 109]
    ensures StringBytes([102, 111, 111]) == [51, 58, 102, 111, 111]
  {
    assert Show(3) == [51] && Show(4) == [52] && Show(42) == Show(4) + [50] == [52, 50];
  }

  lemma TwoItems(v: Value, w: Value)
    ensures EncodeItems([v, w]) == Encode(v) + Encode(w)
  {
    assert [v, w][1..] == [w] && [w][1..] == [];
    assert EncodeItems([w]) == Encode(w) + [] == Encode(w);
  }

  /** d4:spami42ee */
  lemma AsciiDictionary()
    ensures Encode(Dict([Entry([115, 112, 97, 109], UInteger(42))]))
         == [100, 52, 58, 115, 112, 97, 109, 105, 52, 50, 101, 101]
  {
    AsciiScalars();
    OneEntry(Entry([115, 112, 97, 109], UInteger(42)));
  }

  /** l4:spami42ee */
  lemma AsciiList()
    ensures Encode(Array([ByteString([115, 112, 97, 109]), UInteger(42)]))
         == [108, 52, 58, 115, 112, 97, 109, 105, 52, 50, 101, 101]
  {
    AsciiScalars();
    TwoItems(ByteString([115, 112, 97, 109]), UInteger(42));
  }

  /** Where a value should be: nothing, an end mark, or a byte that starts no item. */
  lemma NoValue(s: seq<byte>)
    ensures s == [] ==> DecodeValue(s) == Err(Truncated)
    ensures s != [] && s[0] == 101 ==> DecodeValue(s) == Err(Panic)
    ensures s != [] && s[0] !in {100, 101, 105, 108} && !IsDigit(s[0]) ==> DecodeValue(s) == Err(Panic)
  {
    if s != [] {
      T.NoItem(s);
    }
  }

  lemma FirstIsString(v: Value, tail: seq<byte>)
    requires Valid(v) && !v.ByteString? && Peek(Encode(v) + tail).Item?
    ensures !Peek(Encode(v) + tail).node.ByteString?
  {
    assert (Encode(v) + tail)[0] == Encode(v)[0];
  }

  /** Where a key should be: a value that is no string. */
  lemma NoKey(v: Value, tail: seq<byte>)
    requires Valid(v) && !v.ByteString?
    ensures DecodeValue([100] + (Encode(v) + tail)) == Err(ExpectedString)
  {
    DecodeContainer(Encode(v) + tail);
    FirstToken(v, tail);
    FirstIsString(v, tail);
  }

  /** A key without a value. */
  lemma NoValueForKey(key: seq<byte>, tail: seq<byte>)
    requires |key| <= U64_MAX
    ensures DecodeValue([100] + (StringBytes(key) + ([101] + tail))) == Err(Panic)
  {
    var s := [101] + tail;
    DecodeContainer(StringBytes(key) + s);
    StringToken(key, s);
    NoValue(s);
  }

  /** An integer without digits or beyond 64 bits. */
  lemma NoInteger(digits: seq<byte>, tail: seq<byte>)
    requires AllDigits(digits) && (digits == [] || NumeralValue(digits) > 0xFFFF_FFFF_FFFF_FFFF)
    ensures DecodeValue([105] + digits + [101] + tail) == Err(Panic)
  {
    var s := [105] + digits + [101] + tail;
    var n := 2 + |digits|;
    assert s[..n] == [105] + digits + [101];
    T.SpelledIsRead(s, n, T.Integer(digits));
  }

  /** A string length beyond 64 bits. */
  lemma NoLength(length: seq<byte>, tail: seq<byte>)
    requires length != [] && AllDigits(length) && NumeralValue(length) > 0xFFFF_FFFF_FFFF_FFFF
    ensures DecodeValue(length + [58] + tail) == Err(LengthOverflow)
  {
    var s := length + [58] + tail;
    assert 58 !in length && IsDigit(length[0]);
    T.NoItem(s);
  }
}
