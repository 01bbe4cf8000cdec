/**
 * Serving a byte range of a torrent's file from fixed-size pieces fetched in blocks
 * (boss/webserver/src/main.rs) and the layout of files in the content (boss/magnetite-common/src/torrent.rs).
 */
module PieceStream {
  import opened Bytes

  const BLOCK_SIZE: nat := 16384

  // ---- Files

  function Sum(lengths: seq<nat>): nat
  {
    if lengths == [] then 0 else Sum(lengths[..|lengths| - 1]) + lengths[|lengths| - 1]
  }

  /** Position `p` of the content belongs to file `i`. */
  predicate Owns(lengths: seq<nat>, offsets: seq<nat>, i: int, p: int)
  {
    0 <= i < |lengths| && i < |offsets| && offsets[i] <= p < offsets[i] + lengths[i]
  }

  ghost predicate Owned(lengths: seq<nat>, offsets: seq<nat>, p: int)
  {
    exists i :: Owns(lengths, offsets, i, p)
  }

  lemma {:induction false} OwnerOf(lengths: seq<nat>, offsets: seq<nat>, n: nat, p: nat) returns (i: nat)
    requires n <= |lengths| == |offsets| && p < Sum(lengths[..n])
    requires forall j :: 0 <= j < |offsets| ==> offsets[j] == Sum(lengths[..j])
    ensures Owns(lengths, offsets, i, p)
    decreases n
  {
    assert lengths[..n][..n - 1] == lengths[..n - 1];
    if p < Sum(lengths[..n - 1]) {
      i := OwnerOf(lengths, offsets, n - 1, p);
    } else {
      i := n - 1;
    }
  }

  lemma {:induction false} OffsetsApart(lengths: seq<nat>, i: nat, j: nat)
    requires i < j <= |lengths|
    ensures Sum(lengths[..i]) + lengths[i] <= Sum(lengths[..j])
    decreases j
  {
    assert lengths[..j][..j - 1] == lengths[..j - 1];
    if i < j - 1 {
      OffsetsApart(lengths, i, j - 1);
    }
  }

  /** Each file starts where the previous one ends; returns the offsets and the content length. */
  method AssignOffsets(lengths: seq<nat>) returns (offsets: seq<nat>, total: nat)
    ensures |offsets| == |lengths| && total == Sum(lengths)
    ensures forall i :: 0 <= i < |offsets| ==> offsets[i] == Sum(lengths[..i])
    ensures forall p :: Owned(lengths, offsets, p) <==> 0 <= p < total
    ensures forall p, i, j :: Owns(lengths, offsets, i, p) && Owns(lengths, offsets, j, p) ==> i == j
  {
    offsets, total := [], 0;
    for i := 0 to |lengths|
      invariant |offsets| == i && total == Sum(lengths[..i])
      invariant forall j :: 0 <= j < i ==> offsets[j] == Sum(lengths[..j])
    {
      assert lengths[..i + 1][..i] == lengths[..i];
      offsets := offsets + [total];
      total := total + lengths[i];
    }
    assert lengths[..|lengths|] == lengths;
    forall p
      ensures Owned(lengths, offsets, p) <==> 0 <= p < total
    {
      if 0 <= p < total {
        var i := OwnerOf(lengths, offsets, |lengths|, p);
      } else if Owned(lengths, offsets, p) {
        var i :| Owns(lengths, offsets, i, p);
        OffsetsApart(lengths, i, |lengths|);
        assert false;
      }
    }
    forall p, i, j | Owns(lengths, offsets, i, p) && Owns(lengths, offsets, j, p)
      ensures i == j
    {
      if i < j {
        OffsetsApart(lengths, i, j);
      } else if j < i {
        OffsetsApart(lengths, j, i);
      }
    }
  }

  // ---- Pieces

  /** Where a piece begins, all pieces having the same length. */
  function At(piece: nat, length: nat): nat
    decreases length, piece
  {
    if piece == 0 then 0 else At(piece - 1, length) + length
  }

  lemma {:induction false} AtIsProduct(piece: nat, length: nat)
    ensures At(piece, length) == piece * length
  {
    if piece > 0 {
      AtIsProduct(piece - 1, length);
      assert piece * length == (piece - 1) * length + length;
    }
  }

  lemma {:induction false} Ordered(a: nat, b: nat, length: nat)
    requires a < b
    ensures At(a, length) + length <= At(b, length)
    decreases b
  {
    if a < b - 1 {
      Ordered(a, b - 1, length);
    }
  }

  lemma SplitPosition(start: nat, length: nat)
    requires length > 0
    ensures At(start / length, length) + start % length == start && start % length < length
  {
    AtIsProduct(start / length, length);
  }

  /** The reused buffer, and what has been put together of a piece. */
  datatype Gathering = Gathering(tmp: seq<byte>, data: seq<byte>)

  /**
   * A piece after `n` blocks. A short block leaves the bytes of earlier ones behind it in the reused
   * buffer, all of which is appended each time. None after an oversized block.
   */
  function Gathered(upstream: (nat, nat) -> seq<byte>, piece: nat, n: nat): (g: Option<Gathering>)
    ensures g.Some? ==> |g.value.tmp| == BLOCK_SIZE && |g.value.data| == n * BLOCK_SIZE
  {
    if n == 0 then Some(Gathering(seq(BLOCK_SIZE, _ => 0), []))
    else
      match Gathered(upstream, piece, n - 1)
      case None => None
      case Some(g) =>
        var block := upstream(piece, n - 1);
        if BLOCK_SIZE < |block| then None
        else
          var tmp := block + g.tmp[|block|..];
          Some(Gathering(tmp, g.data + tmp))
  }

  /** A piece is given up exactly when one of its blocks is oversized. */
  lemma {:induction false} GivenUpExactly(upstream: (nat, nat) -> seq<byte>, piece: nat, n: nat)
    ensures Gathered(upstream, piece, n).None? <==> exists i :: 0 <= i < n && BLOCK_SIZE < |upstream(piece, i)|
    decreases n
  {
    if n > 0 {
      GivenUpExactly(upstream, piece, n - 1);
    }
  }

  function DataOf(g: Option<Gathering>): Option<seq<byte>>
  {
    match g
    case None => None
    case Some(g) => Some(g.data)
  }

  /** What fetching a piece gives. */
  function Fetching(upstream: (nat, nat) -> seq<byte>, blocksPerPiece: nat): nat -> Option<seq<byte>>
  {
    (piece: nat) => DataOf(Gathered(upstream, piece, blocksPerPiece))
  }

  lemma {:induction false} GivenUp(upstream: (nat, nat) -> seq<byte>, piece: nat, i: nat, n: nat)
    requires i <= n && Gathered(upstream, piece, i).None?
    ensures Gathered(upstream, piece, n).None?
    decreases n
  {
    if i < n {
      GivenUp(upstream, piece, i, n - 1);
    }
  }

  /** One piece, block by block, through a reused buffer. */
  method FetchPiece(blocksPerPiece: nat, piece: nat, upstream: (nat, nat) -> seq<byte>) returns (r: Option<seq<byte>>)
    ensures r == Fetching(upstream, blocksPerPiece)(piece)
  {
    var pieceData: seq<byte> := [];
    var tmp: seq<byte> := seq(BLOCK_SIZE, _ => 0);
    for i := 0 to blocksPerPiece
      invariant Gathered(upstream, piece, i) == Some(Gathering(tmp, pieceData))
    {
      var block := upstream(piece, i);
      if BLOCK_SIZE < |block| {
        GivenUp(upstream, piece, i + 1, blocksPerPiece);
        return None;
      }
      tmp := block + tmp[|block|..];
      pieceData := pieceData + tmp;
    }
    return Some(pieceData);
  }

  /** What the upstream holds of block `i` of piece `piece`: short at the end of the content, empty past it. */
  function Block(content: seq<byte>, piece: nat, blocksPerPiece: nat, i: nat): (b: seq<byte>)
    ensures |b| <= BLOCK_SIZE
  {
    var start := At(piece, blocksPerPiece * BLOCK_SIZE) + i * BLOCK_SIZE;
    if start >= |content| then []
    else if start + BLOCK_SIZE <= |content| then content[start..start + BLOCK_SIZE]
    else content[start..]
  }

  /** The upstream answers with the blocks of `content`. */
  ghost predicate Holds(upstream: (nat, nat) -> seq<byte>, blocksPerPiece: nat, content: seq<byte>)
  {
    forall p: nat, i: nat :: i < blocksPerPiece ==> upstream(p, i) == Block(content, p, blocksPerPiece, i)
  }

  /** `data` agrees with the content from `base` on, as far as the content goes. */
  ghost predicate Agrees(data: seq<byte>, content: seq<byte>, base: nat)
  {
    forall j :: 0 <= j < |data| && base + j < |content| ==> data[j] == content[base + j]
  }

  lemma TailAgrees(content: seq<byte>, start: nat, block: seq<byte>, tmp: seq<byte>)
    requires |tmp| == BLOCK_SIZE && block <= tmp
    requires block == if start >= |content| then []
                      else if start + BLOCK_SIZE <= |content| then content[start..start + BLOCK_SIZE]
                      else content[start..]
    ensures Agrees(tmp, content, start)
  {
  }

  lemma AgreesFurther(before: seq<byte>, last: seq<byte>, content: seq<byte>, base: nat)
    requires Agrees(before, content, base) && Agrees(last, content, base + |before|)
    ensures Agrees(before + last, content, base)
  {
    forall j | 0 <= j < |before + last| && base + j < |content|
      ensures (before + last)[j] == content[base + j]
    {
      if j < |before| {
        assert before[j] == content[base + j];
      } else {
        assert last[j - |before|] == content[base + |before| + (j - |before|)];
      }
    }
  }

  /** A piece of the content is right wherever the content reaches. */
  lemma {:induction false} PieceAgrees(
    upstream: (nat, nat) -> seq<byte>, blocksPerPiece: nat, content: seq<byte>, piece: nat, n: nat)
    requires Holds(upstream, blocksPerPiece, content) && n <= blocksPerPiece
    ensures Gathered(upstream, piece, n).Some?
    ensures Agrees(Gathered(upstream, piece, n).value.data, content, At(piece, blocksPerPiece * BLOCK_SIZE))
    decreases n
  {
    if n > 0 {
      PieceAgrees(upstream, blocksPerPiece, content, piece, n - 1);
      var g, block := Gathered(upstream, piece, n - 1).value, Block(content, piece, blocksPerPiece, n - 1);
      assert upstream(piece, n - 1) == block;
      var tmp, base := block + g.tmp[|block|..], At(piece, blocksPerPiece * BLOCK_SIZE);
      TailAgrees(content, base + |g.data|, block, tmp);
      AgreesFurther(g.data, tmp, content, base);
    }
  }

  // ---- The bytes that the pieces stand for, `fetch` being what fetching a piece gives

  /** The data of one piece; anything of its length if it cannot be fetched. */
  function PieceData(fetch: nat -> Option<seq<byte>>, length: nat, piece: nat): (data: seq<byte>)
    ensures |data| == length
  {
    if fetch(piece).Some? && |fetch(piece).value| == length then fetch(piece).value else seq(length, _ => 0)
  }

  /** The first `n` pieces in a row. */
  function Pieces(fetch: nat -> Option<seq<byte>>, length: nat, n: nat): (data: seq<byte>)
    ensures |data| == At(n, length)
  {
    if n == 0 then [] else Pieces(fetch, length, n - 1) + PieceData(fetch, length, n - 1)
  }

  lemma {:induction false} PieceAt(fetch: nat -> Option<seq<byte>>, length: nat, n: nat, p: nat)
    requires p < n
    ensures var base := At(p, length);
            && base + length <= |Pieces(fetch, length, n)|
            && Pieces(fetch, length, n)[base..base + length] == PieceData(fetch, length, p)
    decreases n
  {
    var before, last, base := Pieces(fetch, length, n - 1), PieceData(fetch, length, n - 1), At(p, length);
    if p < n - 1 {
      PieceAt(fetch, length, n - 1, p);
      assert (before + last)[base..base + length] == before[base..base + length];
    } else {
      assert (before + last)[base..base + length] == last;
    }
  }

  /** Every piece can be fetched and is right as far as the content goes. */
  ghost predicate Carries(fetch: nat -> Option<seq<byte>>, length: nat, content: seq<byte>)
  {
    forall p: nat ::
      && fetch(p).Some? && |fetch(p).value| == length
      && Agrees(fetch(p).value, content, At(p, length))
  }

  /** An upstream that holds the content makes its pieces carry it. */
  lemma HoldsPieces(upstream: (nat, nat) -> seq<byte>, blocksPerPiece: nat, content: seq<byte>)
    requires Holds(upstream, blocksPerPiece, content)
    ensures Carries(Fetching(upstream, blocksPerPiece), blocksPerPiece * BLOCK_SIZE, content)
  {
    var fetch := Fetching(upstream, blocksPerPiece);
    forall p: nat
      ensures fetch(p).Some? && |fetch(p).value| == blocksPerPiece * BLOCK_SIZE
      ensures Agrees(fetch(p).value, content, At(p, blocksPerPiece * BLOCK_SIZE))
    {
      PieceAgrees(upstream, blocksPerPiece, content, p, blocksPerPiece);
    }
  }

  /** Pieces that carry the content are the content, as far as it goes. */
  lemma {:induction false} PiecesAgree(
    fetch: nat -> Option<seq<byte>>, length: nat, content: seq<byte>, n: nat)
    requires Carries(fetch, length, content)
    ensures Agrees(Pieces(fetch, length, n), content, 0)
    decreases n
  {
    if n > 0 {
      PiecesAgree(fetch, length, content, n - 1);
      AgreesFurther(Pieces(fetch, length, n - 1), PieceData(fetch, length, n - 1), content, 0);
    }
  }

  // ---- Spans

  function Flatten(chunks: seq<seq<byte>>): seq<byte>
  {
    if chunks == [] then [] else Flatten(chunks[..|chunks| - 1]) + chunks[|chunks| - 1]
  }

  lemma FlattenSnoc(chunks: seq<seq<byte>>, c: seq<byte>)
    ensures Flatten(chunks + [c]) == Flatten(chunks) + c
  {
    assert (chunks + [c])[..|chunks|] == chunks;
  }

  /** The piece entered at `skip` and cut to `toSend` bytes. */
  ghost predicate IsChunk(
    fetch: nat -> Option<seq<byte>>, pieceLength: nat, piece: nat, skip: nat, toSend: nat, chunk: seq<byte>)
  {
    && skip <= pieceLength
    && var left := pieceLength - skip;
       var keep := if toSend < left then toSend else left;
       chunk == PieceData(fetch, pieceLength, piece)[skip..skip + keep]
  }

  const LAST_INDEX: nat := 0xFFFF_FFFF

  /**
   * `Oversized` is an upstream that sends too large a block for `piece`, and `IndexOverflows` the panic
   * of the piece counter's increment; chunks may have gone out before either.
   */
  datatype Outcome =
    | Sent(chunks: seq<seq<byte>>)
    | PieceIndexOutOfRange
    | Oversized(piece: nat, chunks: seq<seq<byte>>)
    | IndexOverflows(chunks: seq<seq<byte>>)

  /** Piece `p` has bytes of the span. */
  predicate Needed(start: nat, length: nat, pieceLength: nat, p: nat)
  {
    length > 0 && start < At(p, pieceLength) + pieceLength && At(p, pieceLength) < start + length
  }

  /** All that piece `p` and later ones would have brought is missing. */
  function Before(start: nat, p: nat, pieceLength: nat): nat
  {
    if start < At(p, pieceLength) then At(p, pieceLength) else start
  }

  /** Pieces in a row, more than enough to reach position `end`. */
  function Covering(fetch: nat -> Option<seq<byte>>, pieceLength: nat, end: nat): seq<byte>
  {
    Pieces(fetch, pieceLength, end + 1)
  }

  /** The chunks so far are the bytes from `start` to `at`. */
  ghost predicate Sending(data: seq<byte>, start: nat, at: nat, chunks: seq<seq<byte>>)
  {
    start <= at <= |data| && Flatten(chunks) == data[start..at] && forall i :: 0 <= i < |chunks| ==> chunks[i] != []
  }

  lemma SendingMore(data: seq<byte>, start: nat, at: nat, chunks: seq<seq<byte>>, chunk: seq<byte>)
    requires Sending(data, start, at, chunks) && chunk != []
    requires at + |chunk| <= |data| && chunk == data[at..at + |chunk|]
    ensures Sending(data, start, at + |chunk|, chunks + [chunk])
  {
    assert data[start..at + |chunk|] == data[start..at] + chunk;
    FlattenSnoc(chunks, chunk);
  }

  /** Every piece of the span before piece `n` can be fetched. */
  ghost predicate Fetched(fetch: nat -> Option<seq<byte>>, pieceLength: nat, start: nat, length: nat, n: nat)
  {
    forall p: nat :: p < n && Needed(start, length, pieceLength, p) ==> fetch(p).Some?
  }

  /** What a response is: which bytes of `data` went out, and why no more did. */
  ghost predicate Answers(
    fetch: nat -> Option<seq<byte>>, pieceLength: nat, start: nat, length: nat, data: seq<byte>, r: Outcome)
  {
    var inRange := start < At(LAST_INDEX, pieceLength) + pieceLength;
    match r
    case PieceIndexOutOfRange => !inRange
    case Sent(chunks) =>
      && inRange && !Needed(start, length, pieceLength, LAST_INDEX)
      && Fetched(fetch, pieceLength, start, length, LAST_INDEX)
      && Sending(data, start, start + length, chunks)
    case Oversized(b, chunks) =>
      && b <= LAST_INDEX && Needed(start, length, pieceLength, b) && fetch(b).None?
      && Fetched(fetch, pieceLength, start, length, b)
      && Sending(data, start, Before(start, b, pieceLength), chunks)
    case IndexOverflows(chunks) =>
      && Needed(start, length, pieceLength, LAST_INDEX) && fetch(LAST_INDEX).Some?
      && Fetched(fetch, pieceLength, start, length, LAST_INDEX)
      && Sending(data, start, Before(start, LAST_INDEX, pieceLength), chunks)
  }

  lemma FetchedNext(fetch: nat -> Option<seq<byte>>, pieceLength: nat, start: nat, length: nat, n: nat)
    requires Fetched(fetch, pieceLength, start, length, n) && fetch(n).Some?
    ensures Fetched(fetch, pieceLength, start, length, n + 1)
  {
  }

  /** A span that ends before piece `n` needs none of the pieces from there on. */
  lemma NoneNeeded(start: nat, length: nat, pieceLength: nat, n: nat, p: nat)
    requires n <= p && (length > 0 ==> start + length <= At(n, pieceLength))
    ensures !Needed(start, length, pieceLength, p)
  {
    if n < p {
      Ordered(n, p, pieceLength);
    }
  }

  lemma AllSent(
    fetch: nat -> Option<seq<byte>>, pieceLength: nat, start: nat, length: nat, data: seq<byte>, n: nat,
    first: nat, chunks: seq<seq<byte>>)
    requires n <= LAST_INDEX && (length > 0 ==> start + length <= At(n, pieceLength))
    requires first <= LAST_INDEX && start < At(first, pieceLength) + pieceLength
    requires Fetched(fetch, pieceLength, start, length, n) && Sending(data, start, start + length, chunks)
    ensures Answers(fetch, pieceLength, start, length, data, Sent(chunks))
  {
    NoneNeeded(start, length, pieceLength, n, LAST_INDEX);
    if first < LAST_INDEX {
      Ordered(first, LAST_INDEX, pieceLength);
    }
    forall p: nat | p < LAST_INDEX && Needed(start, length, pieceLength, p)
      ensures fetch(p).Some?
    {
      if n <= p {
        NoneNeeded(start, length, pieceLength, n, p);
      }
    }
  }

  /** Sending has got to `at`, in piece `piece`, whose first byte is at `base`. */
  ghost predicate AtPiece(start: nat, length: nat, at: nat, base: nat, skip: nat, pieceLength: nat)
  {
    base + skip == at < start + length && skip < pieceLength && start <= at && (skip == 0 || at == start)
  }

  lemma StopsHere(start: nat, length: nat, at: nat, piece: nat, skip: nat, pieceLength: nat)
    requires AtPiece(start, length, at, At(piece, pieceLength), skip, pieceLength)
    ensures Needed(start, length, pieceLength, piece) && Before(start, piece, pieceLength) == at
  {
  }

  /** A chunk of the current piece is the bytes at `at`, and leads to the next piece or the end. */
  lemma ChunkOf(
    fetch: nat -> Option<seq<byte>>, pieceLength: nat, n: nat, piece: nat, skip: nat, keep: nat, at: nat)
    requires piece < n && skip + keep <= pieceLength && at == At(piece, pieceLength) + skip
    ensures at + keep <= |Pieces(fetch, pieceLength, n)|
    ensures Pieces(fetch, pieceLength, n)[at..at + keep]
         == PieceData(fetch, pieceLength, piece)[skip..skip + keep]
  {
    PieceAt(fetch, pieceLength, n, piece);
    var data, base := Pieces(fetch, pieceLength, n), At(piece, pieceLength);
    assert data[at..at + keep] == data[base..base + pieceLength][skip..skip + keep];
  }

  lemma PieceBefore(piece: nat, n: nat, length: nat, at: nat)
    requires At(piece, length) <= at < At(n, length)
    ensures piece < n
  {
    if n < piece {
      Ordered(n, piece, length);
    }
  }

  /** No piece before the one a span starts in is needed. */
  lemma NothingNeeded(fetch: nat -> Option<seq<byte>>, pieceLength: nat, start: nat, length: nat, first: nat)
    requires At(first, pieceLength) <= start
    ensures Fetched(fetch, pieceLength, start, length, first)
  {
    forall p: nat | p < first
      ensures !Needed(start, length, pieceLength, p)
    {
      Ordered(p, first, pieceLength);
    }
  }

  /** The loop before `piece`, with `toSend` bytes still owed. */
  ghost predicate Going(
    fetch: nat -> Option<seq<byte>>, pieceLength: nat, start: nat, length: nat, data: seq<byte>,
    piece: nat, skip: nat, toSend: nat, chunks: seq<seq<byte>>)
  {
    && toSend <= length && Sending(data, start, start + (length - toSend), chunks)
    && Fetched(fetch, pieceLength, start, length, piece)
    && var base := At(piece, pieceLength);
       if toSend > 0 then AtPiece(start, length, start + (length - toSend), base, skip, pieceLength)
       else length > 0 ==> start + length <= base
  }

  /** `chunk` is what `data` has at `at`: the rest of the piece, or the last bytes owed. */
  ghost predicate IsNext(data: seq<byte>, at: nat, left: nat, toSend: nat, chunk: seq<byte>)
  {
    && |chunk| == (if toSend < left then toSend else left) && chunk != []
    && at + |chunk| <= |data| && chunk == data[at..at + |chunk|]
  }

  /** A chunk is the bytes at the position reached. */
  lemma ChunkAt(
    fetch: nat -> Option<seq<byte>>, pieceLength: nat, n: nat, at: nat, end: nat, piece: nat, skip: nat,
    toSend: nat, chunk: seq<byte>)
    requires At(piece, pieceLength) + skip == at && at + toSend == end < At(n, pieceLength) && skip < pieceLength
    requires toSend > 0 && IsChunk(fetch, pieceLength, piece, skip, toSend, chunk)
    ensures IsNext(Pieces(fetch, pieceLength, n), at, pieceLength - skip, toSend, chunk)
  {
    PieceBefore(piece, n, pieceLength, at);
    ChunkOf(fetch, pieceLength, n, piece, skip, |chunk|, at);
  }

  /** One chunk: a piece entered at `skip` and cut to the bytes still owed. It is the bytes at the position reached. */
  method NextChunk(
    blocksPerPiece: nat, piece: nat, skip: nat, toSend: nat, upstream: (nat, nat) -> seq<byte>,
    ghost fetch: nat -> Option<seq<byte>>, ghost pieceLength: nat, ghost n: nat, ghost data: seq<byte>, ghost at: nat)
    returns (r: Option<seq<byte>>)
    requires fetch == Fetching(upstream, blocksPerPiece) && pieceLength == blocksPerPiece * BLOCK_SIZE
    requires data == Pieces(fetch, pieceLength, n) && skip < pieceLength && toSend > 0
    requires At(piece, pieceLength) + skip == at && at + toSend < At(n, pieceLength)
    ensures r.Some? <==> fetch(piece).Some?
    ensures r.Some? ==> IsNext(data, at, pieceLength - skip, toSend, r.value)
  {
    var fetched := FetchPiece(blocksPerPiece, piece, upstream);
    if fetched.None? {
      return None;
    }
    var pieceData := fetched.value[skip..];
    if toSend < |pieceData| {
      pieceData := pieceData[..toSend];
    }
    assert IsChunk(fetch, pieceLength, piece, skip, toSend, pieceData);
    ChunkAt(fetch, pieceLength, n, at, at + toSend, piece, skip, toSend, pieceData);
    return Some(pieceData);
  }

  /** A chunk moves the loop on to the next piece. */
  lemma GoesOn(
    fetch: nat -> Option<seq<byte>>, pieceLength: nat, start: nat, length: nat, data: seq<byte>,
    piece: nat, skip: nat, toSend: nat, chunks: seq<seq<byte>>, chunk: seq<byte>)
    requires Going(fetch, pieceLength, start, length, data, piece, skip, toSend, chunks)
    requires toSend > 0 && fetch(piece).Some?
    requires IsNext(data, start + (length - toSend), pieceLength - skip, toSend, chunk)
    ensures |chunk| <= toSend
    ensures Going(fetch, pieceLength, start, length, data, piece + 1, 0, toSend - |chunk|, chunks + [chunk])
  {
    SendingMore(data, start, start + (length - toSend), chunks, chunk);
    FetchedNext(fetch, pieceLength, start, length, piece);
    assert At(piece + 1, pieceLength) == At(piece, pieceLength) + pieceLength;
  }

  lemma GoingStops(
    fetch: nat -> Option<seq<byte>>, pieceLength: nat, start: nat, length: nat, data: seq<byte>,
    piece: nat, skip: nat, toSend: nat, chunks: seq<seq<byte>>)
    requires Going(fetch, pieceLength, start, length, data, piece, skip, toSend, chunks)
    requires toSend > 0 && piece <= LAST_INDEX
    ensures fetch(piece).None? ==>
              Answers(fetch, pieceLength, start, length, data, Oversized(piece, chunks))
    ensures fetch(piece).Some? && piece == LAST_INDEX ==>
              Answers(fetch, pieceLength, start, length, data, IndexOverflows(chunks))
  {
    StopsHere(start, length, start + (length - toSend), piece, skip, pieceLength);
  }

  /** What one turn of the loop leads to. */
  ghost predicate TurnLeads(
    fetch: nat -> Option<seq<byte>>, pieceLength: nat, start: nat, length: nat, data: seq<byte>,
    piece: nat, toSend: nat, chunks: seq<seq<byte>>, stopped: Option<Outcome>, chunk: seq<byte>)
  {
    match stopped
    case Some(r) => Answers(fetch, pieceLength, start, length, data, r)
    case None =>
      && piece < LAST_INDEX && 0 < |chunk| <= toSend
      && Going(fetch, pieceLength, start, length, data, piece + 1, 0, toSend - |chunk|, chunks + [chunk])
  }

  lemma Turn(
    fetch: nat -> Option<seq<byte>>, pieceLength: nat, start: nat, length: nat, data: seq<byte>,
    piece: nat, skip: nat, toSend: nat, chunks: seq<seq<byte>>, next: Option<seq<byte>>,
    stopped: Option<Outcome>, chunk: seq<byte>)
    requires Going(fetch, pieceLength, start, length, data, piece, skip, toSend, chunks)
    requires toSend > 0 && piece <= LAST_INDEX && (next.Some? <==> fetch(piece).Some?)
    requires next.Some? ==> IsNext(data, start + (length - toSend), pieceLength - skip, toSend, next.value)
    requires stopped == if next.None? then Some(Oversized(piece, chunks))
                        else if piece == LAST_INDEX then Some(IndexOverflows(chunks)) else None
    requires next.Some? ==> chunk == next.value
    ensures TurnLeads(fetch, pieceLength, start, length, data, piece, toSend, chunks, stopped, chunk)
  {
    GoingStops(fetch, pieceLength, start, length, data, piece, skip, toSend, chunks);
    if next.Some? {
      GoesOn(fetch, pieceLength, start, length, data, piece, skip, toSend, chunks, next.value);
    }
  }

  lemma ReachedPiece(
    fetch: nat -> Option<seq<byte>>, pieceLength: nat, start: nat, length: nat, data: seq<byte>,
    piece: nat, skip: nat, toSend: nat, chunks: seq<seq<byte>>) returns (at: nat)
    requires Going(fetch, pieceLength, start, length, data, piece, skip, toSend, chunks) && toSend > 0
    ensures at + toSend == start + length && skip < pieceLength && At(piece, pieceLength) + skip == at
  {
    at := start + (length - toSend);
  }

  /** What a turn does with what was fetched: a chunk to send, or the reason to stop. */
  method Decide(
    piece: nat, next: Option<seq<byte>>, chunks: seq<seq<byte>>, ghost fetch: nat -> Option<seq<byte>>,
    ghost pieceLength: nat, ghost start: nat, ghost length: nat, ghost data: seq<byte>, ghost skip: nat,
    ghost toSend: nat, ghost at: nat) returns (stopped: Option<Outcome>, chunk: seq<byte>)
    requires toSend > 0 && piece <= LAST_INDEX && (next.Some? <==> fetch(piece).Some?)
    requires Going(fetch, pieceLength, start, length, data, piece, skip, toSend, chunks)
    requires at + toSend == start + length && skip < pieceLength
    requires next.Some? ==> IsNext(data, at, pieceLength - skip, toSend, next.value)
    ensures TurnLeads(fetch, pieceLength, start, length, data, piece, toSend, chunks, stopped, chunk)
  {
    stopped, chunk := None, [];
    if next.None? {
      stopped := Some(Oversized(piece, chunks));
    } else {
      chunk := next.value;
      if piece == LAST_INDEX {
        stopped := Some(IndexOverflows(chunks));
      }
    }
    Turn(fetch, pieceLength, start, length, data, piece, skip, toSend, chunks, next, stopped, chunk);
  }

  /** One turn of the loop. */
  method SendPiece(
    blocksPerPiece: nat, piece: nat, skip: nat, toSend: nat, upstream: (nat, nat) -> seq<byte>,
    chunks: seq<seq<byte>>, ghost fetch: nat -> Option<seq<byte>>, ghost pieceLength: nat, ghost start: nat,
    ghost length: nat, ghost n: nat, ghost data: seq<byte>) returns (stopped: Option<Outcome>, chunk: seq<byte>)
    requires fetch == Fetching(upstream, blocksPerPiece) && pieceLength == blocksPerPiece * BLOCK_SIZE
    requires data == Pieces(fetch, pieceLength, n) && start + length < At(n, pieceLength)
    requires toSend > 0 && piece <= LAST_INDEX
    requires Going(fetch, pieceLength, start, length, data, piece, skip, toSend, chunks)
    ensures TurnLeads(fetch, pieceLength, start, length, data, piece, toSend, chunks, stopped, chunk)
  {
    ghost var at := ReachedPiece(fetch, pieceLength, start, length, data, piece, skip, toSend, chunks);
    var next := NextChunk(blocksPerPiece, piece, skip, toSend, upstream, fetch, pieceLength, n, data, at);
    stopped, chunk := Decide(piece, next, chunks, fetch, pieceLength, start, length, data, skip, toSend, at);
  }

  lemma Starts(
    fetch: nat -> Option<seq<byte>>, pieceLength: nat, start: nat, length: nat, data: seq<byte>, first: nat,
    offset: nat)
    requires offset < pieceLength && At(first, pieceLength) + offset == start && start + length <= |data|
    ensures Going(fetch, pieceLength, start, length, data, first, offset, length, [])
  {
    NothingNeeded(fetch, pieceLength, start, length, first);
  }

  lemma Finishes(
    fetch: nat -> Option<seq<byte>>, pieceLength: nat, start: nat, length: nat, data: seq<byte>, piece: nat,
    skip: nat, first: nat, chunks: seq<seq<byte>>)
    requires Going(fetch, pieceLength, start, length, data, piece, skip, 0, chunks) && piece <= LAST_INDEX
    requires first <= LAST_INDEX && start < At(first, pieceLength) + pieceLength
    ensures Answers(fetch, pieceLength, start, length, data, Sent(chunks))
  {
    AllSent(fetch, pieceLength, start, length, data, piece, first, chunks);
  }

  /** The pieces from `first` on, until all is sent, a piece cannot be fetched or the index cannot be increased. */
  method SendPieces(
    blocksPerPiece: nat, first: nat, offset: nat, length: nat, upstream: (nat, nat) -> seq<byte>,
    ghost fetch: nat -> Option<seq<byte>>, ghost pieceLength: nat, ghost start: nat, ghost n: nat)
    returns (r: Outcome)
    requires fetch == Fetching(upstream, blocksPerPiece) && pieceLength == blocksPerPiece * BLOCK_SIZE
    requires first <= LAST_INDEX && offset < pieceLength && At(first, pieceLength) + offset == start
    requires start + length < At(n, pieceLength)
    ensures Answers(fetch, pieceLength, start, length, Pieces(fetch, pieceLength, n), r)
  {
    ghost var data := Pieces(fetch, pieceLength, n);
    var piece, skip, toSend := first, offset, length;
    var chunks: seq<seq<byte>> := [];
    Starts(fetch, pieceLength, start, length, data, first, offset);
    while toSend != 0
      invariant 0 <= toSend && 0 <= piece <= LAST_INDEX && 0 <= skip
      invariant Going(fetch, pieceLength, start, length, data, piece, skip, toSend, chunks)
    {
      var stopped, chunk := SendPiece(
        blocksPerPiece, piece, skip, toSend, upstream, chunks, fetch, pieceLength, start, length, n, data);
      if stopped.Some? {
        return stopped.value;
      }
      piece, skip, toSend, chunks := piece + 1, 0, toSend - |chunk|, chunks + [chunk];
    }
    Finishes(fetch, pieceLength, start, length, data, piece, skip, first, chunks);
    return Sent(chunks);
  }

  /** A piece that holds a position has its index. */
  lemma IndexAbove(start: nat, length: nat)
    requires length > 0
    ensures start / length > LAST_INDEX <==> start >= At(LAST_INDEX, length) + length
  {
    SplitPosition(start, length);
    var q := start / length;
    if q > LAST_INDEX {
      Ordered(LAST_INDEX, q, length);
    } else if q < LAST_INDEX {
      Ordered(q, LAST_INDEX, length);
    }
  }

  lemma {:induction false} EnoughPieces(end: nat, length: nat)
    requires length > 0
    ensures end < At(end + 1, length)
    decreases end
  {
    if end > 0 {
      EnoughPieces(end - 1, length);
    }
  }

  lemma SpanBegins(start: nat, length: nat, pieceLength: nat)
    requires pieceLength > 0
    ensures start % pieceLength < pieceLength
    ensures At(start / pieceLength, pieceLength) + start % pieceLength == start
    ensures start / pieceLength > LAST_INDEX <==> start >= At(LAST_INDEX, pieceLength) + pieceLength
    ensures start + length < At(start + length + 1, pieceLength)
  {
    SplitPosition(start, pieceLength);
    IndexAbove(start, pieceLength);
    EnoughPieces(start + length, pieceLength);
  }

  /**
   * Sends `length` bytes from `start`, for every span and whatever the upstream answers: the first piece
   * is entered part way, later ones from their beginning, and the last chunk is cut. The outcome and
   * the bytes sent are the ones that the pieces call for.
   */
  method SendSpan(blocksPerPiece: nat, start: nat, length: nat, upstream: (nat, nat) -> seq<byte>)
    returns (r: Outcome)
    requires blocksPerPiece > 0
    ensures var fetch, pieceLength := Fetching(upstream, blocksPerPiece), blocksPerPiece * BLOCK_SIZE;
            Answers(fetch, pieceLength, start, length, Covering(fetch, pieceLength, start + length), r)
  {
    var pieceLength := blocksPerPiece * BLOCK_SIZE;
    SpanBegins(start, length, pieceLength);
    if start / pieceLength > LAST_INDEX {
      return PieceIndexOutOfRange;
    }
    r := SendPieces(
      blocksPerPiece, start / pieceLength, start % pieceLength, length, upstream,
      Fetching(upstream, blocksPerPiece), pieceLength, start, start + length + 1);
  }

  // ---- Serving files

  /** The bytes that an answer has sent. */
  function Delivered(r: Outcome): seq<byte>
  {
    match r
    case PieceIndexOutOfRange => []
    case _ => Flatten(r.chunks)
  }

  lemma PartAgrees(data: seq<byte>, content: seq<byte>, start: nat, end: nat)
    requires Agrees(data, content, 0) && start <= end <= |data|
    ensures Agrees(data[start..end], content, start)
    ensures end <= |content| ==> data[start..end] == content[start..end]
  {
    forall j | 0 <= j < end - start && start + j < |content|
      ensures data[start..end][j] == content[start + j]
    {
      assert data[start + j] == content[0 + (start + j)];
    }
  }

  /** An answer delivers a part of `data` that starts at `start`, all of it if the span was sent. */
  ghost predicate Part(data: seq<byte>, start: nat, length: nat, r: Outcome)
  {
    var end := start + |Delivered(r)|;
    && (Delivered(r) == [] || (end <= |data| && Delivered(r) == data[start..end]))
    && (r.Sent? ==> |Delivered(r)| == length)
  }

  lemma AnswerIsPart(
    fetch: nat -> Option<seq<byte>>, pieceLength: nat, start: nat, length: nat, data: seq<byte>, r: Outcome)
    requires Answers(fetch, pieceLength, start, length, data, r)
    ensures Part(data, start, length, r)
    ensures r.Oversized? ==> fetch(r.piece).None?
  {
  }

  lemma StoppedHere(
    fetch: nat -> Option<seq<byte>>, pieceLength: nat, start: nat, length: nat, data: seq<byte>, r: Outcome,
    r': Outcome)
    requires r.Oversized? && Answers(fetch, pieceLength, start, length, data, r)
    requires Answers(fetch, pieceLength, start, length, data, r')
    ensures r'.Oversized? && r.piece == r'.piece
  {
    if r.piece < LAST_INDEX {
      Ordered(r.piece, LAST_INDEX, pieceLength);
    }
  }

  /** The answer is determined: of any two, both stop for the same reason after the same bytes. */
  lemma OneAnswer(
    fetch: nat -> Option<seq<byte>>, pieceLength: nat, start: nat, length: nat, data: seq<byte>, r: Outcome,
    r': Outcome)
    requires Answers(fetch, pieceLength, start, length, data, r)
    requires Answers(fetch, pieceLength, start, length, data, r')
    ensures Delivered(r) == Delivered(r') && (r.Sent? <==> r'.Sent?) && (r.Oversized? <==> r'.Oversized?)
    ensures (r.IndexOverflows? <==> r'.IndexOverflows?) && (r.Oversized? ==> r.piece == r'.piece)
  {
    if r.Oversized? {
      StoppedHere(fetch, pieceLength, start, length, data, r, r');
    } else if r'.Oversized? {
      StoppedHere(fetch, pieceLength, start, length, data, r', r);
    }
  }

  /** What has been delivered of `content`: right as far as it goes, and a whole span inside it is exactly that. */
  ghost predicate Right(content: seq<byte>, start: nat, length: nat, r: Outcome)
  {
    && Agrees(Delivered(r), content, start) && (r.Sent? ==> |Delivered(r)| == length)
    && (r.Sent? && start + length <= |content| ==> Delivered(r) == content[start..start + length])
  }

  lemma PartIsRight(data: seq<byte>, content: seq<byte>, start: nat, length: nat, r: Outcome)
    requires Agrees(data, content, 0) && Part(data, start, length, r)
    ensures Right(content, start, length, r)
  {
    if Delivered(r) != [] {
      PartAgrees(data, content, start, start + |Delivered(r)|);
    }
  }

  /**
   * With pieces that carry the content, every byte sent of any span is right as far as the content
   * goes, and a whole answer to a span inside the content is exactly those bytes.
   */
  lemma SendsContent(
    fetch: nat -> Option<seq<byte>>, pieceLength: nat, content: seq<byte>, start: nat, length: nat, r: Outcome)
    requires Carries(fetch, pieceLength, content)
    requires Answers(fetch, pieceLength, start, length, Covering(fetch, pieceLength, start + length), r)
    ensures !r.Oversized? && Right(content, start, length, r)
  {
    var data := Covering(fetch, pieceLength, start + length);
    AnswerIsPart(fetch, pieceLength, start, length, data, r);
    PiecesAgree(fetch, pieceLength, content, start + length + 1);
    PartIsRight(data, content, start, length, r);
  }

  /** Pieces below the last 32-bit index reach position `end`. */
  predicate InReach(blocksPerPiece: nat, end: int)
  {
    end <= 0xFFFF_FFFF * (blocksPerPiece * 16384)
  }

  /** With every piece to be had, exactly the spans that need no piece from 2^32 - 1 on are sent whole. */
  lemma SentExactly(
    fetch: nat -> Option<seq<byte>>, blocksPerPiece: nat, pieceLength: nat, content: seq<byte>, start: nat,
    length: nat, r: Outcome)
    requires blocksPerPiece > 0 && pieceLength == blocksPerPiece * BLOCK_SIZE && length > 0
    requires Carries(fetch, pieceLength, content)
    requires Answers(fetch, pieceLength, start, length, Covering(fetch, pieceLength, start + length), r)
    ensures r.Sent? <==> InReach(blocksPerPiece, start + length)
  {
    AtIsProduct(0xFFFF_FFFF, pieceLength);
    AnswerIsPart(fetch, pieceLength, start, length, Covering(fetch, pieceLength, start + length), r);
  }

  lemma SendsWhatIsHeld(
    upstream: (nat, nat) -> seq<byte>, blocksPerPiece: nat, content: seq<byte>, start: nat, length: nat, r: Outcome)
    requires Holds(upstream, blocksPerPiece, content)
    requires var fetch, pieceLength := Fetching(upstream, blocksPerPiece), blocksPerPiece * BLOCK_SIZE;
             Answers(fetch, pieceLength, start, length, Covering(fetch, pieceLength, start + length), r)
    ensures !r.Oversized? && Right(content, start, length, r)
    ensures blocksPerPiece > 0 && length > 0 ==> (r.Sent? <==> InReach(blocksPerPiece, start + length))
  {
    var fetch, pieceLength := Fetching(upstream, blocksPerPiece), blocksPerPiece * BLOCK_SIZE;
    HoldsPieces(upstream, blocksPerPiece, content);
    SendsContent(fetch, pieceLength, content, start, length, r);
    if blocksPerPiece > 0 && length > 0 {
      SentExactly(fetch, blocksPerPiece, pieceLength, content, start, length, r);
    }
  }

  lemma {:induction false} WholeLength(files: seq<seq<byte>>, lengths: seq<nat>)
    requires |lengths| == |files| && (forall j :: 0 <= j < |files| ==> lengths[j] == |files[j]|)
    ensures |Flatten(files)| == Sum(lengths)
    decreases |files|
  {
    if files != [] {
      WholeLength(files[..|files| - 1], lengths[..|files| - 1]);
    }
  }

  /** A file lies in the content where the lengths of the earlier files say. */
  lemma {:induction false} FileAt(files: seq<seq<byte>>, lengths: seq<nat>, i: nat)
    requires |lengths| == |files| && (forall j :: 0 <= j < |files| ==> lengths[j] == |files[j]|) && i < |files|
    ensures var offset := Sum(lengths[..i]);
            offset + |files[i]| <= |Flatten(files)| && Flatten(files)[offset..offset + |files[i]|] == files[i]
    decreases |files|
  {
    var n := |files| - 1;
    WholeLength(files[..n], lengths[..n]);
    if i < n {
      FileAt(files[..n], lengths[..n], i);
      assert lengths[..n][..i] == lengths[..i];
      var offset, before := Sum(lengths[..i]), Flatten(files[..n]);
      assert Flatten(files)[offset..offset + |files[i]|] == before[offset..offset + |files[i]|];
    }
  }

  method OffsetOf(lengths: seq<nat>, i: nat) returns (offset: nat)
    requires i < |lengths|
    ensures offset == Sum(lengths[..i])
  {
    var offsets, _ := AssignOffsets(lengths);
    return offsets[i];
  }

  datatype Span = Span(start: nat, length: nat)

  /** The last position asked for. */
  function LastOf(end: Option<int>, total: nat): int
  {
    if end.Some? then end.value else total - 1
  }

  /** One range of a request, `bytes=start-` or `bytes=start-end`, for a file of `total` bytes. */
  function RangeSpan(start: int, end: Option<int>, total: nat): Option<Span>
  {
    if start < 0 || total <= start then None
    else
      var last := LastOf(end, total);
      if last <= start then None else Some(Span(start, last - start + 1))
  }

  lemma PartOfFile(content: seq<byte>, file: seq<byte>, offset: nat, start: nat, sent: seq<byte>)
    requires offset + |file| <= |content| && content[offset..offset + |file|] == file
    requires Agrees(sent, content, offset + start)
    ensures Agrees(sent, file, start)
    ensures start + |sent| <= |file| ==> sent == file[start..start + |sent|]
  {
    forall j | 0 <= j < |sent| && start + j < |file|
      ensures sent[j] == file[start + j]
    {
      assert content[offset..offset + |file|][start + j] == content[offset + start + j];
    }
    if start + |sent| <= |file| {
      var part := file[start..start + |sent|];
      assert forall j :: 0 <= j < |sent| ==> sent[j] == part[j];
    }
  }

  /** What an answer to a range of a file has sent, `content` being what all files together hold. */
  ghost predicate Serves(content: seq<byte>, file: seq<byte>, offset: nat, start: nat, last: int, outcome: Outcome)
  {
    var sent := Delivered(outcome);
    && !outcome.Oversized? && Agrees(sent, file, start) && Agrees(sent, content, offset + start)
    && (outcome.Sent? ==> |sent| == last + 1 - start)
    && (outcome.Sent? && start <= last < |file| ==> sent == file[start..last + 1])
  }

  method SendHeld(
    blocksPerPiece: nat, start: nat, length: nat, upstream: (nat, nat) -> seq<byte>, ghost content: seq<byte>)
    returns (r: Outcome)
    requires blocksPerPiece > 0 && Holds(upstream, blocksPerPiece, content)
    ensures !r.Oversized? && Right(content, start, length, r)
    ensures length > 0 ==> (r.Sent? <==> InReach(blocksPerPiece, start + length))
  {
    r := SendSpan(blocksPerPiece, start, length, upstream);
    SendsWhatIsHeld(upstream, blocksPerPiece, content, start, length, r);
  }

  /** Sends a span of a file that lies at `offset`. */
  method ServeSpan(
    blocksPerPiece: nat, offset: nat, span: Span, upstream: (nat, nat) -> seq<byte>, ghost content: seq<byte>,
    ghost file: seq<byte>) returns (outcome: Outcome)
    requires offset + |file| <= |content| && content[offset..offset + |file|] == file
    requires blocksPerPiece > 0 && Holds(upstream, blocksPerPiece, content)
    ensures Serves(content, file, offset, span.start, span.start + span.length - 1, outcome)
    ensures span.length > 0 ==> (outcome.Sent? <==> InReach(blocksPerPiece, offset + span.start + span.length))
  {
    outcome := SendHeld(blocksPerPiece, offset + span.start, span.length, upstream, content);
    PartOfFile(content, file, offset, span.start, Delivered(outcome));
  }

  /**
   * A range of file `i` of a torrent whose upstream holds its files. Refused exactly when it does not
   * start in the file or has fewer than two bytes. Otherwise the bytes sent are the file's from
   * `start` on, and a whole answer to a range that ends in the file is exactly the range asked for. The
   * answer is whole exactly when no piece from 2^32 - 1 on is needed. A range is not cut at the end of
   * the file: past it come the bytes of the files after it.
   */
  method ServeRange(
    lengths: seq<nat>, i: nat, start: int, end: Option<int>, blocksPerPiece: nat,
    upstream: (nat, nat) -> seq<byte>, ghost files: seq<seq<byte>>) returns (r: Option<Outcome>)
    requires |lengths| == |files| && (forall j :: 0 <= j < |files| ==> lengths[j] == |files[j]|) && i < |files|
    requires blocksPerPiece > 0 && Holds(upstream, blocksPerPiece, Flatten(files))
    ensures r.Some? <==> 0 <= start < |files[i]| && start < LastOf(end, lengths[i])
    ensures r.Some? ==>
              Serves(Flatten(files), files[i], Sum(lengths[..i]), start, LastOf(end, lengths[i]), r.value)
    ensures r.Some? ==>
              (r.value.Sent? <==> InReach(blocksPerPiece, Sum(lengths[..i]) + LastOf(end, lengths[i]) + 1))
  {
    var offset := OffsetOf(lengths, i);
    var span := RangeSpan(start, end, lengths[i]);
    if span.None? {
      return None;
    }
    FileAt(files, lengths, i);
    var outcome := ServeSpan(blocksPerPiece, offset, span.value, upstream, Flatten(files), files[i]);
    return Some(outcome);
  }
}
