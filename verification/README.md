# Verified models of the yscloud cores

This project models the parts of yscloud where the logic is hardest and proves what they promise, for
every input, every run or every reachable state. The Rust code that updates things in place is
modelled by classes, arrays and loops, each proved against a function or a stated property; the laws
are then lemmas about those functions.

| module | what it models |
|---|---|
| `Base62`, `Ksuid` | the in-place change of base, the 27-character text form of a KSUID and the order it shares with the 20-byte form |
| `TlsModel`, `TlsReader`, `TlsWire`, `TlsImage`, `TlsLayout` | the ClientHello decoder: what it computes, how it runs, its inverse (section 7.4.1.2 of RFC 5246, section 3 of RFC 6066, section 3.1 of RFC 7301), exactly which values it can return, and the format in numbers |
| `SniDetect`, `Relay`, `Multiplexor`, `Sessions` | the SNI multiplexor: reading a ClientHello in chunks, the half-closing copy loop, a connection from end to end, the session table with its removal queue |
| `Tokenizer`, `Bencode`, `BencodeSerde`, `NumberParser` | streaming bencode (BEP 3): tokenizer, values, serializer and deserializer, number automaton |
| `ArcCache` | the adaptive replacement cache |
| `Registry`, `Resolve`, `Wiring` | the linker: best version, worklist resolution, descriptor wiring |
| `HappyEyeballs` | connecting to two address families (section 4 of RFC 6555) |
| `PeerWire`, `PieceStream` | BitTorrent peer messages (BEP 3) and serving byte ranges from pieces |
| `Connector` | the shared connector, as atomic steps of concurrent tasks |
| `Bytes`, `Words`, `Positional`, `Decimal`, `Utf8`, `SortedMap` | shared vocabulary: bytes, big-endian integers, positional numerals, decimal printing, UTF-8 (RFC 3629), ordered maps |

A byte is an integer below 256. Machine widths are written out where they matter (the u16, u24 and
u32 length fields, u64 string lengths, the 31-bit tie-break counter). Sockets, timers, clocks and
schedulers are parameters: a list of events that the environment may choose freely. Panics of the
source are outcomes (`Panics`, `Panic`, `Panicked`, a false `ok`), never preconditions. Where the code
and its comments or names disagree, the model follows the code.

## What the code does that a reader might not expect

- `change_base` is documented to need a large enough buffer; a buffer with `value < outBase^len` is not
  enough when the buffer is empty and the number is a non-empty run of zeros. `Base62.Fits` is the exact condition.
- A tokenizer that answers Incomplete counts the bytes that still wait in its borrowed slice as missing
  once more (`Tokenizer.CountOvershoots`). The tokens are unaffected.
- Reading back a bencoded integer loses its sign and always gives the unsigned variant. The meaning
  survives exactly when no integer is negative (`Bencode.MeaningKept`).
- The ARC cache's `insert` divides by zero exactly in `ArcCache.DividesByZero` states and loops for ever
  exactly in `ArcCache.LoopsForever` states. Both are reachable.
- A document with a key that is not UTF-8 is read but cannot be written again (`Bencode.RefusedDocument`).
- The relay's two byte counters are swapped. They are right exactly when both directions carried
  equally many bytes (`Relay.CountersExactly`).
- A session that both halves have closed is dropped by the first cleanup 30 seconds later, even if its
  task has still to finish it. That task's lookup then misses, and the source unwraps it
  (`Sessions.MissesExactly`). It does not miss if 2^31 insertions at one instant have made another
  session take over its queue key (`Sessions.CrowdedFinishIsFound`).
- The number parser looks for its stop byte before it looks for digits, so a digit as stop byte cuts
  numerals short. `NumberParser.ParsesExactly` says which survive.
- A serialized `Have` announces one byte and carries five, so the reader refuses it. A list of messages
  survives the wire exactly when no `Have` is in it.
- The ghost list B2 of the ARC cache has no bound, unlike B1 (`ArcCache.GhostsAreUnbounded`).
- Serving a span that reaches piece 2^32 - 1 overflows the running piece index before that
  piece is sent.
- A range request for a single byte is refused, and a range that ends past the end of its file is not
  cut: it goes on with the bytes of the next files of the torrent, and past those with what
  the reused block buffer still holds (`PieceStream.ServeRange`).
- The in-memory registry misses exactly the matching versions below 0.0.0 (pre-releases of 0.0.0); the
  directory registry does not (`Resolve.RegistriesAgree`).
- When the newest acceptable version in a directory cannot be loaded, an older one is not tried.
- When a required service has no implementation, the resolver's error names the requiring service.
- A socket that cannot be made ends the attempts of its family, untried addresses included, while a
  refused connection only moves on to the next address.
- When two components share a package, the instance started last serves all of its consumers.

## Model

| member | source | states |
|---|---|---|
| Base62.DivideDigit | ksuid/src/base62.rs:72-74 | the quotient digit fits the input base and the remainder the output base, for every running quotient |
| Base62.DivideNext | ksuid/src/base62.rs:71-80 | one step of the division computes the digit that keeps that identity |
| Base62.DivideInPlace | ksuid/src/base62.rs:68-80 | one pass leaves in the front of the same buffer the quotient without leading zeros, returns the remainder, never clobbers an unread digit and leaves the rest of the buffer alone |
| Base62.ConvertingStep | ksuid/src/base62.rs:67-86 | a pass moves one digit from the old base to the new one without changing the number |
| Base62.QuotientShrinks | ksuid/src/base62.rs:67-86 | each pass makes the value smaller, or leaves it and empties the number: the measure (value, length) decreases |
| Base62.TooLarge | ksuid/src/base62.rs:82-83 | a number that is left when the output is full did not fit |
| Base62.Converted | ksuid/src/base62.rs:56-61 | when nothing is left, the digits written behind untouched zeros have the original value |
| Base62.ChangeBase | ksuid/src/base62.rs:61-87 | ends without panic exactly when the number fits the buffer, and then the output digits have the value of the input digits |
| Ksuid.DigitsSuffice | ksuid/src/lib.rs:40-42 | 62^27 exceeds 2^160 |
| Ksuid.MaxIsAllOnes | ksuid/src/lib.rs:45 | MAX_BASE62_KSUID is the text of 2^160 - 1 |
| Bytes.LexIsFirstDifference | ksuid/src/lib.rs:119-121 | slices compare by their first difference, a prefix being smaller |
| Ksuid.TextOrder | ksuid/src/base62.rs:20-29 | lexicographic order of equally long base-62 texts is the order of their values |
| Ksuid.GuardIsExact | ksuid/src/lib.rs:119-121 | among 27-character base-62 texts the comparison with MAX_BASE62_KSUID rejects exactly those of 2^160 and above |
| Ksuid.GuardedTextsDenoteNothing | ksuid/src/lib.rs:119-121 | a text turned away by the guards is the text of no identifier |
| Ksuid.UnguardedTextsFit | ksuid/src/lib.rs:119-126 | a base-62 text that passes the guards fits 20 bytes |
| Ksuid.EncodeRaw | ksuid/src/base62.rs:90-95 | succeeds exactly when the output is large enough, and then writes base-62 characters of the same value |
| Ksuid.DecodeRaw | ksuid/src/base62.rs:99-122 | rejects exactly the inputs with a character outside the alphabet, panics exactly when the value does not fit, and otherwise writes the same value |
| Ksuid.ToBase62 | ksuid/src/lib.rs:182-189 | every identifier gets its 27-character text, without panic |
| Ksuid.FromBase62 | ksuid/src/lib.rs:117-128 | total on every string: an accepted text denotes the result, a rejected one denotes no identifier |
| Ksuid.DenotesIsOneToOne | ksuid/src/lib.rs:117-189 | text and identifier determine each other |
| Ksuid.PrintThenParse | ksuid/src/lib.rs:117-189 | parsing the text of an identifier gives the identifier back |
| Ksuid.ParseThenPrint | ksuid/src/lib.rs:117-189 | printing a parsed text gives the text back; a refused text denotes nothing |
| Ksuid.SortOrder | ksuid/src/lib.rs:63-64 | texts sort as their identifiers do |
| Ksuid.New | ksuid/src/lib.rs:82-87 | the parts put in are the parts read out |
| Ksuid.ChronologicalOrder | ksuid/src/lib.rs:224-231 | an earlier timestamp sorts first, in binary and in text |
| TlsReader.ByteIter.Skip | parsing/tls/src/lib.rs:71-79 | takes a whole slice and advances past it, or fails and stays |
| TlsReader.ReadRandom | parsing/tls/src/lib.rs:81-151 | reads 32 bytes as time and random, or reports truncation |
| TlsReader.ReadSessionId | parsing/tls/src/lib.rs:211-225 | agrees with the session id parser in value, error and bytes used |
| TlsReader.ReadCipherSuites | parsing/tls/src/lib.rs:306-374 | agrees with the cipher suite parser in value, error and bytes used |
| TlsReader.ReadCompressionMethods | parsing/tls/src/lib.rs:269-301 | agrees with the compression parser in value, error and bytes used |
| TlsReader.CountEntries | parsing/tls/src/lib.rs:596-609 | the first pass counts the entries of a whole list and fails exactly on a broken one |
| TlsReader.ReadServerName | parsing/tls/src/lib.rs:589-624 | the counted list of server names, or the first error |
| TlsReader.ReadAlpn | parsing/tls/src/lib.rs:649-679 | the counted list of protocols, or the first error |
| TlsReader.ReadExtension | parsing/tls/src/lib.rs:712-744 | one extension by its type, and the iterator after it |
| TlsReader.ReadExtensions | parsing/tls/src/lib.rs:749-789 | the counted list of extensions, or the first error |
| TlsReader.ReadClientHello | parsing/tls/src/lib.rs:163-186 | agrees with the ClientHello parser on every input |
| TlsReader.ReadMessage | parsing/tls/src/lib.rs:385-392 | type and body as the three length bytes announce |
| TlsReader.ReadHandshake | parsing/tls/src/lib.rs:378-404 | agrees with the handshake parser on every input |
| TlsReader.ExtractRecordPrefix | parsing/tls/src/lib.rs:406-418 | nothing at the end of the data, an error inside a prefix, else the five prefix bytes |
| TlsReader.ExtractRecord | parsing/tls/src/lib.rs:420-432 | nothing at the end of the data, an error inside a record, else the first record and the rest |
| TlsReader.HandshakeSize | parsing/tls/src/lib.rs:438-445 | the first pass finds the exact number of handshake bytes, or the framing error |
| TlsReader.CopyRecord | parsing/tls/src/lib.rs:451-459 | copies the next handshake record behind the earlier ones; the unwrap cannot fail |
| TlsReader.CopyHandshake | parsing/tls/src/lib.rs:450-460 | the second pass fills the buffer with the handshake bytes, exactly |
| TlsReader.DecodeClientHello | parsing/tls/src/lib.rs:434-468 | the two-pass decoder computes the decoding function, whose byte layout TlsLayout pins down number by number; neither the unwrap nor the length assertion fires |
| TlsWire.FramesOfFlatten | parsing/tls/src/lib.rs:749-789 | splitting a run of well-formed entries gives the entries back |
| TlsWire.ListRoundTrip | parsing/tls/src/lib.rs:589-624 | a length-prefixed list reads back as the values written |
| TlsWire.ExtensionRoundTrip | parsing/tls/src/lib.rs:712-744 | every valid extension reads back as itself |
| TlsWire.SuitesRoundTrip | parsing/tls/src/lib.rs:306-374 | the cipher suites read back as written, whatever follows |
| TlsWire.HelloRoundTrip | parsing/tls/src/lib.rs:163-186 | every well-formed ClientHello reads back from its wire form |
| TlsWire.HandshakeRoundTrip | parsing/tls/src/lib.rs:378-404 | so does its handshake message, whatever bytes follow it |
| TlsWire.RecordBytes | parsing/tls/src/lib.rs:420-432 | a written record is the first record of its bytes |
| TlsWire.UnframeStream | parsing/tls/src/lib.rs:438-459 | the handshake bytes of a record stream are the handshake records' data in order |
| TlsWire.FragmentationIndependence | parsing/tls/src/lib.rs:434-468 | however the handshake bytes are cut into records and whatever other records stand between, the decoder returns the ClientHello sent |
| TlsWire.UnframeGrows | parsing/tls/src/lib.rs:438-459 | more whole records only extend the handshake bytes |
| TlsWire.HandshakeIsStable | parsing/tls/src/lib.rs:378-404 | an answer other than Truncated stays when handshake bytes are added |
| TlsWire.DecodeIsStable | parsing/tls/src/lib.rs:434-468 | a stream and an extension of it never get different answers other than Truncated |
| TlsWire.PrefixStability | parsing/tls/src/lib.rs:434-468 | any two prefixes of a stream that get an answer get the same one |
| TlsImage.FramesCover | parsing/tls/src/lib.rs:756-772 | the entries of a whole list take up all of its bytes |
| TlsImage.ExtensionAccepted | parsing/tls/src/lib.rs:712-744 | an accepted extension is valid and no longer on the wire than what it was read from |
| TlsImage.HelloAccepted | parsing/tls/src/lib.rs:163-186 | every accepted ClientHello is well-formed |
| TlsImage.DecoderImage | parsing/tls/src/lib.rs:434-468 | a ClientHello is well-formed if and only if some byte stream decodes to it |
| Words.U16IsBigEndian | parsing/tls/src/lib.rs:313-316 | a two-byte length is its bytes read with the high byte first |
| TlsLayout.U24IsBigEndian | parsing/tls/src/lib.rs:385-392 | a three-byte length likewise |
| TlsLayout.RecordLayout | parsing/tls/src/lib.rs:420-432 | a record is its type, two version bytes, two length bytes, high one first, and its data |
| TlsLayout.HandshakeLayout | parsing/tls/src/lib.rs:376-404 | a ClientHello message starts with 1 and three length bytes, high one first |
| TlsLayout.HelloLayout | parsing/tls/src/lib.rs:163-186 | the body is version, time, random, session id, suites, methods and extensions, in that order, each list behind its length |
| TlsLayout.ServerNameLayout | parsing/tls/src/lib.rs:475-624 | server names are extension 0, each of type 0 with a two-byte length |
| TlsLayout.AlpnLayout | parsing/tls/src/lib.rs:499-679 | protocols are extension 16, each with a one-byte length |
| TlsLayout.ExtensionLayout | parsing/tls/src/lib.rs:712-744 | any other extension is its two identifier bytes, two length bytes and data |
| TlsLayout.SuiteTable | parsing/tls/src/lib.rs:227-374 | the fifteen named cipher suites, byte by byte |
| TlsLayout.HelloIsRead | parsing/tls/src/lib.rs:434-468 | the bytes of a client that asks for any name, written out as numbers, decode to the ClientHello that asks for it |
| TlsLayout.CutMessage | parsing/tls/src/lib.rs:385-392 | any message cut anywhere asks for more bytes |
| TlsLayout.CutRecord | parsing/tls/src/lib.rs:406-445 | any stream that ends inside a record asks for more bytes |
| TlsLayout.OtherMessage | parsing/tls/src/lib.rs:396-468 | a message of another type is read as unknown, and is no ClientHello |
| TlsLayout.ShortBody | parsing/tls/src/lib.rs:163-186 | a body without a session id length is truncated |
| TlsLayout.LongSession | parsing/tls/src/lib.rs:219-221 | a session id above 32 bytes is a violation, whatever follows |
| TlsLayout.OddSuites | parsing/tls/src/lib.rs:306-374 | an odd suite length is a violation, whatever follows |
| TlsLayout.OtherMethod | parsing/tls/src/lib.rs:269-301 | a compression method other than null is a violation, even if later ones are missing |
| TlsLayout.BadName | parsing/tls/src/lib.rs:560-624 | a server name of another type or not in UTF-8 is a violation |
| TlsLayout.BadProtocol | parsing/tls/src/lib.rs:630-679 | a protocol that is not UTF-8 is a violation |
| TlsLayout.ListPastEnd | parsing/tls/src/lib.rs:589-609 | a list that announces more than there is looks truncated |
| Utf8.Utf8Exactly | parsing/tls/src/lib.rs:581 | the accepted byte strings are exactly the encodings of sequences of Unicode scalar values |
| SniDetect.ServerNames | experiments/sni-multiplexor/src/sni_base.rs:6-16 | none exactly when there is no server_name extension |
| SniDetect.ServerNamesAreFirst | experiments/sni-multiplexor/src/sni_base.rs:6-16 | otherwise the names are those of the first server_name extension |
| SniDetect.DetectSniName | experiments/sni-multiplexor/src/sni2.rs:80-105 | computes the detection function: wait, refuse with the right alert, or the single name |
| SniDetect.StopsAtFirstAnswer | experiments/sni-multiplexor/src/sni2.rs:157-174 | the loop stops at the first read after which detection has an answer, and its outcome is that answer, an I/O error or a wait |
| SniDetect.ReadClientHelloSni | experiments/sni-multiplexor/src/sni2.rs:128-187 | takes exactly those reads, answers what detection says of the buffer then, and the buffer is every byte read up to there |
| SniDetect.DetectionIsStable | experiments/sni-multiplexor/src/sni2.rs:80-105 | an answer is final, and the end of the stream repeats it or refuses |
| SniDetect.ChunkingDoesNotMatter | experiments/sni-multiplexor/src/sni2.rs:157-174 | if any cut of the stream is decodable, the loop gives that cut's answer wherever the reads ended |
| SniDetect.SameNameForAnyChunking | experiments/sni-multiplexor/src/sni2.rs:157-174 | two ways of reading one stream that both find a name find the same name |
| SniDetect.OfferedNameIsFound | experiments/sni-multiplexor/src/sni2.rs:128-187 | a client that offers one name is routed by it, for every cut into records and every cut into reads |
| SniDetect.EveryNameCanBeOffered | experiments/sni-multiplexor/src/sni2.rs:128-187 | for every UTF-8 name that an extension can carry there is a stream from which it is found, however it is read |
| SniDetect.NamelessIsUnrecognized | experiments/sni-multiplexor/src/sni2.rs:90-96 | a client without the extension is refused with unrecognized_name, however its bytes are cut |
| SniDetect.FirstExtensionDecides | experiments/sni-multiplexor/src/sni2.rs:90-105 | the first server_name extension decides: its one name is found; none or several are an internal error |
| SniDetect.BrokenIsInternalError | experiments/sni-multiplexor/src/sni2.rs:80-89 | a stream that breaks the format is an internal error, however it is cut |
| SniDetect.UnfinishedWaits | experiments/sni-multiplexor/src/sni2.rs:81-174 | a stream without an answer waits for more, fails with the read, or is an internal error at its end |
| Relay.PrependHeader | experiments/sni-multiplexor/src/sni2.rs:458-469 | the write buffer is the optional header followed by the bytes already read |
| Relay.StepConserves | experiments/sni-multiplexor/src/sni2.rs:497-557 | every turn keeps delivered plus pending equal to what was read, in both directions, half-closes cleanly and keeps the counters' meaning |
| Relay.LogIsSelected | experiments/sni-multiplexor/src/sni2.rs:497-557 | what the loop reports to have taken is the events it can select, in the order they came |
| Relay.EveryRun | experiments/sni-multiplexor/src/sni2.rs:486-560 | in every run nothing is lost, reordered or duplicated; a side is shut only when everything sent to it is delivered; a normal exit has delivered everything both ways |
| Relay.WritePhase | experiments/sni-multiplexor/src/sni2.rs:498-512 | with something left to write, a turn only writes: it moves the written part, or fails on an error or the write timer |
| Relay.ReadPhase | experiments/sni-multiplexor/src/sni2.rs:514-556 | with nothing left to write, a turn reads whichever open side is ready, also after the other side has ended (Relay.Completes); neither of the two emptiness assertions can fire |
| Relay.CopyLoop | experiments/sni-multiplexor/src/sni2.rs:486-560 | the loop of both phases takes exactly the selectable events of any environment, runs until both reads ended, an error or the end of the events, and has the properties of every run |
| Relay.Completes | experiments/sni-multiplexor/src/sni2.rs:497-557 | from every state of the loop, in either order: what the sides still open send before they end is delivered behind what was pending, and the loop finishes |
| Relay.HalfClosedRequest | experiments/sni-multiplexor/src/sni2.rs:514-557 | a client that ends before the backend answers gets the whole answer, for all requests and responses in chunks |
| Relay.FailureEnds | experiments/sni-multiplexor/src/sni2.rs:498-556 | an input or output error, a timer or a failed shutdown ends the loop in the state it finds |
| Relay.ReadsWait | experiments/sni-multiplexor/src/sni2.rs:498-535 | a read is passed over while anything is pending and after its side has ended |
| Relay.CountersExactly | experiments/sni-multiplexor/src/sni2.rs:523-548 | after every run the counters name the right direction if and only if both directions carried equally much |
| Relay.WrongDirection | experiments/sni-multiplexor/src/sni2.rs:542-547 | one chunk from the client is counted as backend-to-client traffic, whatever was buffered before |
| Multiplexor.Serve | experiments/sni-multiplexor/src/sni2.rs:378-569 | one connection, from the first read to the end of the copy loop: refused, without backend, not dialed, or copied with the header and everything read so far in front |
| Multiplexor.BackendGetsEverything | experiments/sni-multiplexor/src/sni2.rs:428-569 | in every run the backend of the client's name gets its header and then everything read from the client, before and in the copy loop, in order; the client gets what the backend sent |
| Multiplexor.HandshakeReachesBackend | experiments/sni-multiplexor/src/sni2.rs:378-569 | a client that offers one name reaches that name's backend, which gets the records of the handshake byte for byte behind the header, for every cut into records and reads |
| Multiplexor.EveryClientIsRouted | experiments/sni-multiplexor/src/sni2.rs:378-485 | every ClientHello with a server_name extension: not routed, without backend, not dialed or copied, by exactly which name it offers |
| Multiplexor.NamelessIsNotRouted | experiments/sni-multiplexor/src/sni2.rs:378-427 | a ClientHello without the extension is not routed, with the alert unrecognized_name |
| Multiplexor.RequestIsAnswered | experiments/sni-multiplexor/src/sni2.rs:378-569 | a whole exchange ends with the header, the handshake and the request at the backend and the answer at the client, the early half-close notwithstanding |
| Sessions.SessionManager.AddSession | experiments/sni-multiplexor/src/state_track.rs:108-110 | adds a session in Handshaking and changes nothing else |
| Sessions.SessionManager.Cleanup | experiments/sni-multiplexor/src/state_track.rs:122-129 | the removal loop leaves the table without the expired sessions and queue entries |
| Sessions.SessionManager.Enqueue | experiments/sni-multiplexor/src/state_track.rs:170-173 | queues the session 30 seconds ahead and advances the 31-bit tie-break |
| Sessions.SessionManager.Mark | experiments/sni-multiplexor/src/state_track.rs:138-225 | each marking call fails exactly on a missing session and otherwise marks, queues and cleans up |
| Sessions.CleanupIsExact | experiments/sni-multiplexor/src/state_track.rs:122-129 | cleanup at t removes exactly the sessions with a queued deadline at or before t |
| Sessions.MissIsOverdue | experiments/sni-multiplexor/src/sni2.rs:449-552 | a lookup can only miss for a session that closed 30 seconds or more before an earlier cleanup |
| Sessions.StepKeepsInv | experiments/sni-multiplexor/src/sni2.rs:516-552 | every step of any task that finds its session keeps the invariant and moves no session's state backwards, at whatever time it comes |
| Sessions.EveryRun | experiments/sni-multiplexor/src/sni2.rs:350-376 | in every interleaving without a miss, of any length, the table holds exactly the sessions not yet cleaned up and the queue exactly the entries still due, each under its 31-bit key |
| Sessions.OnlyShutdownIsRemoved | experiments/sni-multiplexor/src/state_track.rs:122-129 | whatever cleanup removes is in Shutdown |
| Sessions.MissesExactly | experiments/sni-multiplexor/src/state_track.rs:122-225 | any interleaving of any number of sessions and calls: a lookup misses if and only if a session was queued at c, another call came at c + 30 s or later, and the session is then looked up, unless a later insertion at the same instant took over its queue key |
| Sessions.SessionShowsCalls | experiments/sni-multiplexor/src/state_track.rs:138-225 | in every run a session is in the state that its calls call for, and its two counters are the sums of the bytes reported in the two directions |
| Sessions.FewAreKept | experiments/sni-multiplexor/src/state_track.rs:170-173 | with at most 2^31 insertions no queue key is taken over |
| Sessions.SlowFinishMisses | experiments/sni-multiplexor/src/state_track.rs:199-209 | from the empty table, a session that is finished after another's call at a later time is not found exactly when that is 30 seconds later or more |
| Sessions.CrowdedFinishIsFound | experiments/sni-multiplexor/src/state_track.rs:170-173 | so do runs of the exception: of 2^31 + 1 sessions closed at one instant the first is still found at any later time |
| Tokenizer.ParseItem | boss/bencode/src/lib.rs:218-253 | an item lies inside the input, and an incomplete one always asks for more |
| Tokenizer.ItemExactly | boss/bencode/src/lib.rs:218-253 | an item is read exactly when its ASCII spelling stands at the front |
| Tokenizer.NoItem | boss/bencode/src/lib.rs:218-253 | which bytes are no item, and how each is refused |
| Tokenizer.CutItem | boss/bencode/src/lib.rs:218-253 | an item cut anywhere asks for exactly the missing bytes of a string whose length is known, else for one |
| Tokenizer.ItemIsStable | boss/bencode/src/lib.rs:218-253 | more bytes never change an answer, and an incomplete item lacks exactly what it says |
| Tokenizer.Tokenizer.AddDataCopying | boss/bencode/src/lib.rs:137-142 | the unread stream grows by exactly the new bytes |
| Tokenizer.Tokenizer.AddData | boss/bencode/src/lib.rs:144-148 | the unread stream grows by exactly the new bytes |
| Tokenizer.Tokenizer.FixupScratch | boss/bencode/src/lib.rs:151-162 | compaction keeps every live byte, because more than half the capacity is dead |
| Tokenizer.Tokenizer.Next | boss/bencode/src/lib.rs:150-215 | the next item of the unread stream in whichever buffers it lies, consumed unless peeked; the loop terminates |
| Tokenizer.ConsumesTokens | boss/bencode/src/lib.rs:150-215 | items read off a stream are a prefix of its one-buffer tokens, all of them exactly when no further item can be read |
| Tokenizer.ExpectedTokens | boss/bencode/src/lib.rs:127-215 | the tokens a schedule should give are a prefix of the one-buffer tokens of all its bytes, all of them exactly when no further item can be read |
| Tokenizer.RepliesExactly | boss/bencode/src/lib.rs:150-215 | each read is answered with the next item of what is unread; a count of missing bytes is right if and only if none of the unread bytes waits in the lent slice |
| Tokenizer.CountOvershoots | boss/bencode/src/lib.rs:164-200 | every unfinished item read in two parts gets the same count twice, though part of it has come in between |
| Tokenizer.RunSchedule | boss/bencode/src/lib.rs:127-215 | every schedule of feeding, copying, peeking and reading gives exactly the expected tokens and the expected reply to each read and peek, counts included, leaves the expected bytes in each buffer, and total_offset is how far it got |
| Bencode.DecodeEncode | boss/bencode/src/lib.rs:472-501 | decoding an encoded value gives its normal form and leaves what follows, at every depth |
| Bencode.RoundTrip | boss/bencode/src/ser/mod.rs:17-26 | a value is written exactly when every key is UTF-8, and its document then reads back with integers unsigned and their sign dropped |
| Bencode.MeaningKept | boss/bencode/src/lib.rs:21-31 | the round trip keeps the meaning if and only if no integer is negative |
| Bencode.CanonicalDocument | boss/bencode/src/ser/mod.rs:378-385 | decoding and re-encoding the document of a value without negative integers gives the same bytes; with a key that is not UTF-8 it is refused |
| Bencode.DecodedIsClean | boss/bencode/src/value.rs:62-135 | every accepted document yields a valid value with strictly increasing keys at every depth |
| Bencode.SameBytesExactly | boss/bencode/src/value.rs:38-135 | re-encoding any byte string gives it back if and only if it is the document of a writable value without negative integers |
| Bencode.CanonicalForm | boss/bencode/src/value.rs:38-135 | re-encoding succeeds if and only if the document is accepted and all its keys are UTF-8, and then gives a document of the same value |
| Bencode.RefusedDocument | boss/bencode/src/ser/string.rs:48-51 | d1:\xff0:e is accepted and cannot be written again |
| Bencode.TrailingIsRefused | boss/bencode/src/lib.rs:33-44 | an accepted document with anything behind it is refused as trailing |
| Bencode.CutDocument | boss/bencode/src/lib.rs:33-44 | an accepted document cut anywhere is refused as truncated |
| Bencode.WholeDocumentsOnly | boss/bencode/src/lib.rs:33-44 | both for everything the writer writes |
| Bencode.LastValueWins | boss/bencode/src/lib.rs:694-737 | a dictionary in any key order is read in key order, each key with the value that came last for it |
| Bencode.AsciiDictionary | boss/bencode/src/ser/mod.rs:354-385 | a dictionary byte by byte |
| Bencode.AsciiList | boss/bencode/src/ser/mod.rs:83-126 | a list byte by byte |
| Bencode.NoValue | boss/bencode/src/lib.rs:472-501 | what is refused where a value should be |
| Bencode.NoKey | boss/bencode/src/lib.rs:707-716 | any other value where a key should be is refused as no string |
| Bencode.NoValueForKey | boss/bencode/src/lib.rs:717-722 | a key without a value ends in the panic of a stray end mark |
| Bencode.NoInteger | boss/bencode/src/lib.rs:472-501 | an integer without digits or above 64 bits panics |
| Bencode.NoLength | boss/bencode/src/lib.rs:236-253 | a string length above 64 bits is refused as such |
| BencodeSerde.SerializeMap.SerializeKey | boss/bencode/src/ser/mod.rs:354-362 | a key is taken exactly when it is UTF-8 |
| BencodeSerde.SerializeMap.SerializeValue | boss/bencode/src/ser/mod.rs:364-376 | binds the pending key, keeps all other bindings and strictly increasing key order whatever the call order |
| BencodeSerde.SerializeMap.End | boss/bencode/src/ser/mod.rs:378-385 | writes the collected entries in key order and the end mark |
| BencodeSerde.Serialize | boss/bencode/src/ser/mod.rs:83-126 | succeeds exactly when every key is UTF-8 and then appends the wire form |
| BencodeSerde.DeserializeAny | boss/bencode/src/lib.rs:472-501 | pulling tokens computes the decoding function and leaves the tokenizer after the value |
| BencodeSerde.DeserializeSeq | boss/bencode/src/lib.rs:632-666 | the list loop computes the decoding function and ends |
| BencodeSerde.DeserializeMap | boss/bencode/src/lib.rs:694-737 | the dictionary loop computes the decoding function, a repeated key keeping its last value |
| BencodeSerde.ReadDocument | boss/bencode/src/lib.rs:33-44 | the check of the two buffers accepts exactly the documents with nothing after the value; anything behind an accepted one is refused (Bencode.TrailingIsRefused) |
| BencodeSerde.WriteDocument | boss/bencode/src/ser/mod.rs:17-26 | the serializer writes the whole document of a value, or refuses it over a key that is not UTF-8 |
| BencodeSerde.Reencode | boss/bencode/src/value.rs:38-135 | reading with the tokenizer and writing with the serializer computes the re-encoding that the laws above are about |
| NumberParser.Parser.Push | boss/bencode/src/number.rs:43-50 | appends one byte and tells whether another fits |
| NumberParser.Parser.PushByte | boss/bencode/src/number.rs:78-134 | follows the automaton on everything pushed so far; no push overflows and no assertion fires |
| NumberParser.FedDescribes | boss/bencode/src/number.rs:78-134 | what each state says about the bytes read, for every stop byte |
| NumberParser.FinalLanguage | boss/bencode/src/number.rs:78-134 | Final is reached if and only if the input is a numeral of at most 20 characters without leading zero or negative zero, then the stop byte for the first time after it could have ended; the digits kept are all but the stop byte |
| NumberParser.OneNumeral | boss/bencode/src/number.rs:27-32 | every i64 and u64 value has exactly one accepted numeral |
| NumberParser.ParsesExactly | boss/bencode/src/number.rs:78-169 | for every stop byte, a digit included: a number comes out if and only if what went in is its printed form with no stop byte where the numeral could have ended, then the stop byte, and the type can hold it |
| NumberParser.ParsesOrdinary | boss/bencode/src/number.rs:65-76 | with a stop byte that is no digit, such as the default, every number of the type comes back from its printed form |
| NumberParser.OffenceIsReported | boss/bencode/src/number.rs:78-134 | the first byte that cannot stand where it does is reported by its kind, whatever follows |
| NumberParser.EndRefuses | boss/bencode/src/number.rs:136-169 | too few bytes, a minus sign where none may be and a number out of range are told apart |
| NumberParser.ParseBytes | boss/bencode/src/number.rs:78-145 | the same for pushing a whole buffer byte by byte, and a refused input gets the automaton's error |
| ArcCache.ReplaceAfterHit | boss/webserver/src/arc.rs:85-115 | replacement after a ghost hit never pops an empty list and hangs exactly when T2 alone overfills the cache |
| ArcCache.ReplaceAfterFresh | boss/webserver/src/arc.rs:85-115 | replacement after a fresh key never pops an empty list and hangs exactly at capacity 0 |
| ArcCache.AdaptOutcome | boss/webserver/src/arc.rs:152-186 | a ghost hit divides by zero exactly in the named states and otherwise moves the target inside its bounds |
| ArcCache.InsertOutcome | boss/webserver/src/arc.rs:140-199 | one insertion panics or hangs if and only if its state is one of the two named kinds, and otherwise keeps the lists disjoint and bounded |
| ArcCache.RefreshOutcome | boss/webserver/src/arc.rs:124-138 | refreshing never fails, keeps the invariant, changes no binding and returns the current one |
| ArcCache.InsertValues | boss/webserver/src/arc.rs:140-199 | after an insertion every key is absent or bound to its newest value |
| ArcCache.TargetMoves | boss/webserver/src/arc.rs:152-186 | a B2 ghost lowers the target by max(1, B1 / (B2 - 1)) down to 0, a B1 ghost raises it by the mirrored step up to the capacity, and nothing else moves it |
| ArcCache.HitMoves | boss/webserver/src/arc.rs:140-150 | a cached key becomes the newest of its own list, and nothing else moves |
| ArcCache.RefreshMoves | boss/webserver/src/arc.rs:124-138 | a second use makes a key the newest of T2, and nothing else moves |
| ArcCache.GhostMoves | boss/webserver/src/arc.rs:85-199 | a ghost becomes the newest of T2; which list gives up its oldest entry, and which ghost list it goes to |
| ArcCache.FreshMoves | boss/webserver/src/arc.rs:85-199 | a new key becomes the newest of T1; only a full cache gives up an entry, and which one |
| ArcCache.EveryRun | boss/webserver/src/arc.rs:64-199 | in every run the four lists are disjoint, T1 and T2 together, B1 and the target stay within capacity, and a value found is the last one inserted for its key |
| ArcCache.GhostsAreUnbounded | boss/webserver/src/arc.rs:102-114 | for every n some run of a cache of capacity 2 has n + 1 keys in the ghost list B2 |
| ArcCache.RunStopsOnlyAtGuards | boss/webserver/src/arc.rs:140-199 | a run fails to come back if and only if it inserts into a guarded state |
| ArcCache.HangIsReachable | boss/webserver/src/arc.rs:109-111 | a short run reaches a state whose next insertion loops for ever |
| ArcCache.ZeroDivisionIsReachable | boss/webserver/src/arc.rs:158-162 | a short run reaches a state whose next insertion divides by zero |
| ArcCache.Cache.EvictRecent | boss/webserver/src/arc.rs:94-101 | drops the oldest key of T1 and remembers it in B1, within its bound |
| ArcCache.Cache.EvictFrequent | boss/webserver/src/arc.rs:102-114 | drops the oldest key of T2 and remembers it in B2; tells whether the loop then ends |
| ArcCache.Cache.ReplaceHelper | boss/webserver/src/arc.rs:85-115 | the eviction loops compute the replacement function |
| ArcCache.Cache.GetNoRefresh | boss/webserver/src/arc.rs:117-122 | finds a binding in either list |
| ArcCache.Cache.GetRefresh | boss/webserver/src/arc.rs:124-138 | moves the key to T2, returns its binding, and never reaches the unreachable branch |
| ArcCache.Cache.AdaptTo | boss/webserver/src/arc.rs:152-186 | the ghost list and target updates compute the adaptation, whose steps ArcCache.TargetMoves states in numbers |
| ArcCache.Cache.PlaceNew | boss/webserver/src/arc.rs:188-196 | placement and replacement of a new key compute the insertion function |
| ArcCache.Cache.Insert | boss/webserver/src/arc.rs:140-199 | panics and hangs exactly in the named states, else the new state, the target in numbers, the previous value and the evictions |
| Registry.AddIsExact | linker/src/registry/mod.rs:219-222 | after add_package that version has the entry added, every other keeps its own, and the order is kept |
| Registry.Precedence | linker/src/registry/mod.rs:231-257 | versions go by their three numbers in turn, then a pre-release before its release, then its identifiers |
| Registry.LastMatchIsBest | linker/src/registry/mod.rs:231-248 | in key order the last match at or above 0.0.0 is the greatest of all matches |
| Registry.FindBestInMemory | linker/src/registry/mod.rs:231-257 | the winner is the greatest stored match, and the only greatest one; there is none exactly when every match is below 0.0.0 |
| Registry.GreatestIsGreatest | linker/src/registry/mod.rs:79-97 | the winner of a listing in any order is its greatest match; there is none exactly when nothing matches |
| Registry.FindBestInDirectory | linker/src/registry/mod.rs:79-97 | the scan finds that winner |
| Resolve.ResolvePublic | linker/src/cmdlet/create_release.rs:93-109 | the public services with their packages, or one that has no implementation |
| Resolve.ResolveRequired | linker/src/cmdlet/create_release.rs:132-147 | the required services with their packages, or proof that one has no implementation |
| Resolve.ClosedHoldsChain | linker/src/cmdlet/create_release.rs:111-130 | a set with the public services that is closed under requirements holds everything reachable |
| Resolve.FinishedDeploys | linker/src/cmdlet/create_release.rs:111-190 | an empty queue means that exactly the reachable services are resolved |
| Resolve.OffersIsFound | linker/src/registry/mod.rs:67-257 | an entry is found in memory exactly when a match at or above 0.0.0 is stored, in a directory exactly when a match is listed and the greatest can be loaded |
| Resolve.RegistriesAgree | linker/src/registry/mod.rs:67-257 | with the same entries both registries find the same one, unless every match is below 0.0.0 |
| Resolve.FindEntry | linker/src/registry/mod.rs:67-257 | the lookup of either registry gives that entry |
| Resolve.RunWorklist | linker/src/cmdlet/create_release.rs:111-190 | the worklist over either registry ends on every template, deploys exactly the reachable services or explains why not |
| Resolve.ResolveTemplate | linker/src/cmdlet/create_release.rs:79-193 | over either registry: terminates on cycles; succeeds if and only if every service reachable from the public ones is implemented by a package the registry offers; then deploys each of them exactly once, at the greatest acceptable version, and otherwise names a culprit |
| Resolve.DeploysGreatestVersions | linker/src/registry/mod.rs:67-257 | every component of a resolved manifest is the registry's entry at a version that its requirement accepts, and no accepted version is newer |
| Wiring.IndexPackages | linker/src/cmdlet/run.rs:193-249 | the index maps each package to the instance started last for it, and every instance starts without descriptors |
| Wiring.WireListener | linker/src/cmdlet/run.rs:256-298 | one public service: which of the two errors comes and when, else one listening descriptor at its instance and nothing else |
| Wiring.WirePublic | linker/src/cmdlet/run.rs:256-298 | fails exactly on an unknown package, never over an instance, else adds one listening descriptor for each public service |
| Wiring.WireEdge | linker/src/cmdlet/run.rs:302-339 | one required service: the unknown-package and unknown-instance errors come exactly when those are missing, else its connected pair, or its listener for a container, and nothing else |
| Wiring.Reify | linker/src/cmdlet/run.rs:177-344 | fails exactly on an unknown package and never over an unknown instance; else every instance holds exactly the descriptors its public services and edges call for, in whatever order instances are visited |
| Wiring.PairsMatch | linker/src/cmdlet/run.rs:132-175 | instance a consumes a service of b exactly as often as b serves it to a |
| Wiring.DescriptorsExactly | linker/src/cmdlet/run.rs:256-339 | how many descriptors of each kind every instance gets: pairs for its requirements, sockets in front of a container, one listener for each publication |
| Wiring.NothingElseIsWired | linker/src/cmdlet/run.rs:256-339 | there are no other descriptors |
| Wiring.ResolvedManifestWires | linker/src/cmdlet/run.rs:256-308 | a manifest that comes from resolution names no unknown package |
| HappyEyeballs.FilterMember | dialer/src/dns.rs:255-256 | the partition keeps exactly the addresses of the family |
| HappyEyeballs.FilterAppends | dialer/src/dns.rs:255-256 | splitting keeps the order of the addresses |
| HappyEyeballs.SplitByPreference | dialer/src/dns.rs:248-259 | the first address decides the preferred family; order is kept and no address is lost |
| HappyEyeballs.PollRemote | dialer/src/http.rs:447-518 | asks the sockets in order and once each: connects to the first that accepts, waits at the first that is busy, errs when all have refused or one cannot be made, panics exactly with nothing to ask |
| HappyEyeballs.ConnectingTcp.constructor | dialer/src/http.rs:391-425 | both families start untried, and a fallback exists only with addresses to try |
| HappyEyeballs.ConnectingTcp.PollOnce | dialer/src/http.rs:520-566 | the answer and the attempts after one poll are those that the sockets and the timer call for, said of the sockets alone by HappyEyeballs.EveryAnswer |
| HappyEyeballs.PollKeepsOrder | dialer/src/http.rs:520-566 | every such poll keeps the order of attempts in both families, errs only when both families are used up or given up, and panics exactly without addresses |
| HappyEyeballs.FamilyAnswers | dialer/src/http.rs:447-518 | one poll of a family: connected to the address of the last socket asked exactly when that is connected, pending exactly when it is busy, otherwise all asked have refused |
| HappyEyeballs.EveryAnswer | dialer/src/http.rs:520-566 | over every schedule, in terms of the sockets asked: Ready(a) exactly when the last socket asked in the last poll is connected and a is its address; before that, and under any other answer, no socket asked was connected; Pending exactly when every poll left a socket busy |
| HappyEyeballs.AskedInOrder | dialer/src/http.rs:447-566 | over every schedule each family is asked from its first address, a busy socket again, the next one only after a refusal, and none after a connection |
| HappyEyeballs.PreferredConnects | dialer/src/http.rs:520-566 | after any wait the first preferred socket that is connected wins, whatever the other family does |
| HappyEyeballs.FallbackConnects | dialer/src/http.rs:530-536 | while the preferred family is busy, the fallback family wins once the delay has fired |
| HappyEyeballs.FallbackReplaces | dialer/src/http.rs:558-562 | when every preferred address refuses, the fallback family is tried at once, whatever the timer does |
| HappyEyeballs.RunKeepsOrder | dialer/src/http.rs:520-566 | so does every run from any point of a connection, by induction over the polls made |
| HappyEyeballs.EveryRun | dialer/src/http.rs:391-566 | in the history of every poll schedule: each address tried at most once and in order, a fallback address only if the delay fired in that schedule or the preferred family is done with, an error only when both families are, a panic exactly without addresses |
| HappyEyeballs.ErrorTriedAll | dialer/src/http.rs:391-566 | an error without a failing timer or a socket that could not be made means that every address was tried |
| HappyEyeballs.NewConnecting | dialer/src/http.rs:391-425 | with a fallback delay the addresses are split by family, without one they are all preferred |
| HappyEyeballs.Connect | dialer/src/http.rs:391-566 | over every poll schedule the answer is the one that the sockets asked call for, the history is the one those polls make, and it has the properties of every run |
| PeerWire.RoundTrip | boss/magnetite-common/src/proto.rs:212-306 | every sendable message but Have reads back as itself, with its size, whatever follows |
| PeerWire.HaveIsRefused | boss/magnetite-common/src/proto.rs:242-246 | every serialized Have is a protocol violation |
| PeerWire.HaveIsRead | boss/magnetite-common/src/proto.rs:242-246 | a Have of the size that the protocol gives it is read |
| PeerWire.SentAsLaidOut | boss/magnetite-common/src/proto.rs:315-402 | the bytes of every message in numbers; only a Have differs from the protocol |
| PeerWire.PeekExactly | boss/magnetite-common/src/proto.rs:212-306 | a buffer holds a message exactly when it starts with that message as the protocol lays it out |
| PeerWire.NoMessage | boss/magnetite-common/src/proto.rs:212-306 | what is no message: how many bytes are asked for, when it is refused and when it panics |
| PeerWire.ProperPrefix | boss/magnetite-common/src/proto.rs:212-220 | every proper prefix of a message is incomplete by a positive count, at most what is missing, except that a Have is already refused at its fifth byte |
| PeerWire.StreamRoundTrip | boss/magnetite-common/src/proto.rs:212-402 | a list of messages comes back whole with nothing left if and only if no Have is in it |
| PeerWire.Buffer.Serialize | boss/magnetite-common/src/proto.rs:315-402 | appends the wire form of the message |
| PeerWire.Buffer.Pop | boss/magnetite-common/src/proto.rs:308-313 | consumes a whole message or nothing |
| PeerWire.ReceiveAll | boss/magnetite-common/src/proto.rs:308-313 | popping until nothing more comes computes the stream function |
| PeerWire.Exchange | boss/magnetite-common/src/proto.rs:212-402 | sending and receiving a list through one buffer returns it exactly when no Have is in it |
| PieceStream.AssignOffsets | boss/magnetite-common/src/torrent.rs:201-210 | the files tile the content: every position below the total is in exactly one file, none above it |
| PieceStream.GivenUpExactly | boss/webserver/src/main.rs:629-651 | a piece is given up exactly when one of its blocks is oversized |
| PieceStream.PieceAgrees | boss/webserver/src/main.rs:626-651 | a piece of the content is right as far as the content reaches, short last blocks included |
| PieceStream.FetchPiece | boss/webserver/src/main.rs:626-651 | the block loop computes that piece, for every upstream: always of full length, a short block leaving the bytes of earlier ones behind it |
| PieceStream.NextChunk | boss/webserver/src/main.rs:655-669 | the cut piece is exactly the pieces' bytes at the current position; none if the piece cannot be fetched |
| PieceStream.SendPieces | boss/webserver/src/main.rs:572-678 | the loop sends the pieces' bytes from the start on, up to the end asked for, the first piece that cannot be fetched or the last index |
| PieceStream.SendSpan | boss/webserver/src/main.rs:519-678 | for every span and every upstream: which bytes go out and which of the four outcomes comes, each with its exact condition (whole span sent, first index above 32 bits, an oversized block, index overflow) |
| PieceStream.OneAnswer | boss/webserver/src/main.rs:519-678 | those conditions leave one answer: same reason, same bytes |
| PieceStream.SendsContent | boss/webserver/src/main.rs:519-678 | with the content upstream every byte sent is right as far as the content goes, and a whole answer inside it is exactly the bytes asked for |
| PieceStream.SentExactly | boss/webserver/src/main.rs:519-678 | with every piece to be had, exactly the spans that need no piece from 2^32 - 1 on are sent whole |
| PieceStream.FileAt | boss/magnetite-common/src/torrent.rs:201-210 | every file is found in the content at its offset |
| PieceStream.ServeRange | boss/webserver/src/main.rs:704-741 | a range of file i is refused exactly when it does not start in the file or has fewer than two bytes; a whole answer to one that ends in the file is exactly those bytes of the file; past the end of the file come the bytes after it; the answer is whole exactly when no piece from 2^32 - 1 on is needed |
| Connector.Build | tonic/linker-connector/src/lib.rs:77-89 | the reversed stack and its count start the invariant |
| Connector.StepKeepsInv | tonic/linker-connector/src/lib.rs:121-160 | every atomic step of every task keeps: pushed = handed out, then in flight, then the stack from its top |
| Connector.EveryRun | tonic/linker-connector/src/lib.rs:121-160 | in every interleaving the connections go out at most once and in the order pushed, the count is never below the stack, and a finished clone means an empty stack |
| Connector.FinishedForever | tonic/linker-connector/src/lib.rs:121-132 | once any clone is finished, the stack stays empty and nothing more is handed out |
| Connector.LockerIsServed | tonic/linker-connector/src/lib.rs:148-155 | a call that gets the lock while connections are left is handed the next one, whatever other tasks do meanwhile |
| Connector.TooLateIsRefused | tonic/linker-connector/src/lib.rs:155-158 | a call that gets the lock when all are handed out is refused and changes nothing else |
| Connector.ReadyWhileLeft | tonic/linker-connector/src/lib.rs:121-146 | a clone is ready, and takes a call, exactly while connections are left |
| Connector.CallsHandOut | tonic/linker-connector/src/lib.rs:121-160 | calls in turn hand out everything that is left, in the order it was pushed |

## Left out

- Arena allocation, error messages and `Debug` output of the TLS decoder, and the lifetimes of borrowed slices: no effect on what is decoded.
- The writing and parsing of PROXY headers, backend lookup, DNS, dialing and the socket calls of the multiplexor: their results are parameters or events.
- The time limit on reading a ClientHello, administrative cancellation (`destroy`), latencies, backend names and transmission times of a session: they only end a run early, or no state transition depends on them.
- Overflow of the session's u64 byte counters and of `total_offset`.
- `FmtBase62`, hex text, `EPOCH` arithmetic and random payloads of KSUIDs: a second printer with the same table, and easy members.
- `conversion_len_bound`: floating point, used only for general buffers.
- Serde plumbing of bencode beyond what `Value` uses (structs, enums, options, floats), and reading documents from an `io::Read`.
- Offsets and texts inside bencode errors: only the kind of error is modelled.
- `LinkedHashMap` is modelled by its documented order; replacing a present key's value is taken to move it to the back, as that library does.
- ArcCache.Cache.ReplaceHelper: reports a loop that can never end as `Hangs` instead of running it, because its guard does not depend on what its body changes.
- Version requirements are an arbitrary predicate on versions; pre-release identifiers are compared by rank and build metadata is not modelled.
- The names and files of a registry directory: listing a package and loading a version are parameters that may fail.
- Configuration, sandbox settings and artifact hashes that resolution copies into a component, and the socket and directory set-up of wiring: carried along unchanged.
- Instance UUIDs are taken never to repeat and are modelled by their order of creation.
- PieceStream.SendSpan: takes the overflowing increment of the piece index as the end of the response, as a build with overflow checks has it; a build without them wraps to piece 0.
- The text of a range header, its limit of 30 ranges and the multipart boundaries between spans; a connection to the upstream that breaks off.
- The torrent metadata parser, the peer handshake codec and the piece request codec: fixed layouts that would only add easy members.
- Connector.EveryRun: treats the lock, each load, the pop and the store as atomic steps in one global order, which sequentially consistent accesses and the mutex provide.
- The remaining crates (the appliance init and network manager, `boss/vfs`, `boss/vfshost`, the other experiments, the management protocol): input and output, databases and system calls.
