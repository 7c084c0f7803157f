# A verified model of the MySQL client

`mysql-core` speaks the MySQL Client/Server Protocol without doing any I/O: bytes go in, packets and rows come out.
`mysql` adds a connection pool, transaction guards, cursors and query templating. This project models the parts of
both crates where the state is, in Dafny, and proves what they promise.

Every stateful component has two forms. A class (or a method with a loop) changes fields and buffers in place, step by
step, like the code; its postconditions equate the whole new state with a function of the old one. The properties are
lemmas about those functions, over every input, every cut of the bytes, or every run. The modules whose names end in
`Format` state what the functions do in terms of bytes, characters and numbers alone, without the model's own helpers.

| module | what it models |
|---|---|
| `Bytes` | bytes, little-endian integers, concatenation, errors |
| `Framing`, `Compression`, `PacketStream`, `Transport`, `SmallReads`, `WireFormat` | packets cut into frames of at most 2^24-1 bytes, reassembly from chunks, wrapping sequence numbers, the compressed layer |
| `Protocol`, `PacketFormat` | the packet cursor, packet kinds, length-encoded integers and strings, column definitions |
| `ResultSet`, `ResultReader`, `ResultAgreement`, `ResultEncoding` | the phase machine that turns packets into rows, buffered and unbuffered |
| `EndToEnd` | transport, driver loop and reader together |
| `Transactions`, `Pool`, `PoolRuns`, `PoolPromises` | the server session, transaction guards, the pool manager, every interleaving of clients and manager, and what becomes of abandoned and hidden transactions |
| `Escaping`, `Templating`, `Batching` | string literals and the lexer that reads them, `%s` templates, insert batching |
| `TimeValues`, `TimeFormat` | printing and reading TIME values with saturating arithmetic |
| `Auth`, `AuthFormat`, `Handshake` | the authentication continuation machine and the HandshakeV10 greeting |

zlib, hashes, RSA, literal rendering and statement execution are function values passed in. Of zlib only "inflating a
deflated text gives it back, and tells its length" is assumed, as the hypothesis `Inverse(z)`. The server session in
`Transactions` follows sections 15.3.1 and 15.3.3 of the MySQL 8.4 Reference Manual, the string lexer in `Escaping`
section 11.1.1.

## What the code does that one might not expect

- The frame parser queues an unfinished payload when the last complete frame of a chunk is full-size, even if part of
  the next frame has arrived. Such a feed, or stream, is called open below. `Framing.CutCondition`
  says exactly which single cuts of an accepted stream matter, `Framing.CutsExactly` does for any number of pieces, and
  `Framing.CutCanSplitAPayload` gives one that matters.
- The driver reads at most 4096 bytes at a time (mysql/src/connection.rs:276) and feeds each read. In plain mode a
  payload of 2^24-1+4092 bytes or more therefore never arrives whole, however the reads fall
  (`SmallReads.TooLongNeverArrives`); shorter ones can (`SmallReads.ReceivableExactly`).
- In compressed mode the size limit applies to everything inflated and not yet parsed, not to one packet.
  `Transport.CompressedDelivery` says payloads arrive if and only if that stays within the limit at every feed (and no
  feed is open).
- The documentation of `begin` promises an error for a transaction that is already open. The code rolls the open
  transaction back first (`Transactions.NestedBeginDiscards`); the error is reachable only if the ROLLBACK is answered
  by a stale OK that still reports a transaction (`Transactions.BeginRefusesExactly`). The model follows the code.
- "Abandoned work stays abandoned" fails when a guard begun inside another guard is dropped and the outer one commits:
  `PoolPromises.OuterGuardCommitsAbandonedWork`. `PoolPromises.PromiseExactly` and `PoolPromises.AbandonedExactly` say
  exactly which runs break it; if commits on a connection are sent only while it is not marked dirty, its abandoned
  work is never committed (`PoolPromises.AbandonedStaysAbandoned`).
- A reply that is rejected (too large, out of sequence) or never awaited leaves the connection open with the status of
  the statement before (mysql-core/src/connection/packet.rs:309-318, mysql-core/src/connection.rs:233-251), and a reply
  left on the stream can be taken for the answer to the next statement. A transaction opened by such a statement is
  hidden from the client: the connection goes back to the pool without a ROLLBACK, and the next `begin` commits the work
  (`PoolPromises.UnreadReplyIsCommittedLater`). What survives: no idle connection is ever marked dirty, abandoned work
  stays abandoned. `PoolPromises.IdleExactly` and `Transactions.BeginCommitsExactly` say exactly when idle connections
  have no transaction and when beginning commits nothing.
- Text that cannot be read as a TIME value comes back without its leading dashes: `TimeValues.UnconvertibleText`.
- After an authentication switch to `caching_sha2_password` the new salt is not stored, so a following full
  authentication encrypts the password with the old one: `Auth.SwitchSaltIsUsedExactly`.
- An OK response leaves the unbuffered flag of the reader set, so an unbuffered reader goes on to take the packets of a
  later response for rows. `ResultAgreement.BufferedAndUnbufferedAgree` and `ResultAgreement.DrainAfterSomeRows` say that
  the two ways of reading agree exactly on the other responses.
- Insert statements after the first have a comma between the prefix and the first row: `Batching.StrayComma`. All are
  spelled properly if and only if all rows fit in one statement: `Batching.PlainInsertsExactly`.
- The refusal of an oversize compressed frame, when writing and when reading, and the empty-password answer in the sha256
  key phase are dead code: `Transport.WritesSucceed`, `Compression.CLenBound`, `Auth.EmptyPasswordNeverInKeyPhase`.

## Model

| member | source | states |
|---|---|---|
| `Framing.FrameLenBound` | mysql-core/src/connection/packet.rs:18-20 | a three-byte length never exceeds the frame limit, so a frame is full-size exactly when its length equals the limit |
| `Framing.ParseWritten` | mysql-core/src/connection/packet.rs:298-394 | the frames of any deliverable payloads, in front of any bytes, parse to those payloads followed by the parse of the rest with the writer's next number |
| `Framing.UndeliverableRejected` | mysql-core/src/connection/packet.rs:366-388 | a stream holding one payload above the size limit or one ERR packet is never accepted |
| `Framing.FramingRoundTrip` | mysql-core/src/connection/packet.rs:99-124 | one feed of everything written yields exactly the payloads, an empty buffer and the writer's counter, if and only if every payload is within the limit and not an ERR packet; empty payloads and exact multiples of 2^24-1 included |
| `Framing.ParseCut` | mysql-core/src/connection/packet.rs:187-206 | if the last complete frame of the first piece is not full-size, feeding two pieces has the outcome of feeding them at once, errors included |
| `Framing.CutCondition` | mysql-core/src/connection/packet.rs:326-345 | for a stream accepted in one piece, a cut changes nothing if and only if the last complete frame before it is not full-size or the second piece completes no further frame |
| `Framing.CutCanSplitAPayload` | mysql-core/src/connection/packet.rs:326-345 | a payload of one full frame cut before its empty terminator arrives as two packets |
| `Framing.CutIndependence` | mysql-core/src/connection/packet.rs:298-394 | the same for any number of pieces |
| `Framing.PacketCount` | mysql-core/src/connection/packet.rs:298-394 | an accepted buffer gives one packet for each frame that ends a payload, and one more if it ends inside a payload |
| `Framing.CutsExactly` | mysql-core/src/connection/packet.rs:187-206 | for a stream accepted in one piece, feeding it in any number of pieces changes nothing if and only if there is one open feed if the whole stream is open, and none otherwise |
| `Framing.AcceptedNumbers` | mysql-core/src/connection/packet.rs:348-364 | an accepted stream is numbered consecutively modulo 256 from the reader's counter, which advances once per frame |
| `Framing.WrittenNumbers` | mysql-core/src/connection/packet.rs:112-115 | written frames are numbered consecutively modulo 256 and there are as many as the frame count |
| `Compression.CLenBound` | mysql-core/src/connection/packet.rs:209-295 | the reader's own oversize check can never fire |
| `Compression.InflateFrames` | mysql-core/src/connection/packet.rs:209-295 | compressed frames, in front of any bytes, inflate to the plain stream they were made from and advance the counter once each |
| `Compression.InflateOverflow` | mysql-core/src/connection/packet.rs:279-288 | more inflated bytes than the limit are refused as too large, wherever the frames end |
| `Compression.SplitPrefix` | mysql-core/src/connection/packet.rs:209-236 | every prefix of a compressed stream is a number of whole frames and one incomplete frame, and the remainder continues it |
| `Compression.InflatedNumbers` | mysql-core/src/connection/packet.rs:238-254 | accepted compressed frames are numbered consecutively modulo 256 |
| `Compression.CWrittenNumbers` | mysql-core/src/connection/packet.rs:172-177 | written compressed frames are numbered consecutively, one per piece |
| `PacketStream.Stream.constructor` | mysql-core/src/connection/packet.rs:50-61 | a new stream is empty, uncompressed, with both counters 0 |
| `PacketStream.Stream.EnableCompression` | mysql-core/src/connection/packet.rs:69-72 | turns the layer on and restarts only its counter |
| `PacketStream.Stream.ResetSeqId` | mysql-core/src/connection/packet.rs:85-88 | both counters restart, nothing else changes |
| `PacketStream.Stream.ForceClose` | mysql-core/src/connection/packet.rs:91-96 | all buffers and queues are emptied, counters kept |
| `PacketStream.Stream.BuildPlainPackets` | mysql-core/src/connection/packet.rs:99-124 | the loop produces the frames of the payload and advances the counter by their number |
| `PacketStream.Stream.WritePacket` | mysql-core/src/connection/packet.rs:127-135 | whole effect of a write in either mode |
| `PacketStream.Stream.WriteCompressedPacket` | mysql-core/src/connection/packet.rs:138-182 | whole effect of a compressed write, also when zlib fails half-way |
| `PacketStream.Stream.SendCompressed` | mysql-core/src/connection/packet.rs:141-180 | the loop sends one compressed frame per stretch of at most the limit, stopping where zlib fails |
| `PacketStream.Stream.CompressedPacket` | mysql-core/src/connection/packet.rs:141-180 | one stretch is framed deflated or raw, whichever the length rule selects; the oversize-body error is never reached |
| `PacketStream.Stream.FeedBytes` | mysql-core/src/connection/packet.rs:187-206 | whole effect of receiving bytes, including the early return that drops the taken buffer |
| `PacketStream.Stream.FeedCompressedPackets` | mysql-core/src/connection/packet.rs:209-295 | the loop inflates every complete frame, with each error's effect on the state |
| `PacketStream.Stream.ParsePlainPackets` | mysql-core/src/connection/packet.rs:298-394 | the outer loop refines the recursive parser: queue, leftover, counter, count and errors |
| `PacketStream.Stream.AssemblePacket` | mysql-core/src/connection/packet.rs:326-383 | the inner loop joins the frames of one payload, or closes the stream with the matching error |
| `PacketStream.Stream.ReadPacket` | mysql-core/src/connection/packet.rs:397-399 | packets leave the queue in order; an empty queue asks for more data |
| `Transport.PlainCutIndependence` | mysql-core/src/connection/packet.rs:187-206 | feeding a stream in pieces gives the same queue, leftover, counters and total, or the same error, as feeding it at once, unless the last complete frame before a cut is full-size |
| `Transport.PlainWritten` | mysql-core/src/connection/packet.rs:127-135 | plain writes always succeed and send exactly the frames of the payloads |
| `Transport.PlainDelivery` | mysql-core/src/connection/packet.rs:298-394 | deliverable payloads of any number of frames arrive in order if and only if no feed is open |
| `Transport.ShortCutsAreSafe` | mysql-core/src/connection/packet.rs:326-345 | in a stream of single-frame payloads no feed is open, however it is cut |
| `Transport.WritesSucceed` | mysql-core/src/connection/packet.rs:138-182 | writing fails only where zlib does: no payload is too large |
| `Transport.CompressedRefinesPlain` | mysql-core/src/connection/packet.rs:209-295 | however the compressed bytes are cut, if every feed fits in the size limit, the outcome is that of feeding the plain stream cut where the inflated bytes are cut: the whole state and count if it is accepted; the error, the queued packets and the next number if it is refused |
| `Transport.PlainChunksFlatten` | mysql-core/src/connection/packet.rs:209-295 | the compressed bytes, however they are cut, inflate to the plain stream, cut accordingly |
| `Transport.OverfullFeedFails` | mysql-core/src/connection/packet.rs:279-288 | whatever the stream, a feed that does not fit makes the reader fail, if it has not failed before |
| `Transport.OverfullFeedRefused` | mysql-core/src/connection/packet.rs:279-288 | a stream that would be accepted is refused as too large as soon as one feed does not fit |
| `Transport.CompressedDelivery` | mysql-core/src/connection/packet.rs:138-295 | however the compressed bytes are cut, deliverable payloads written in compressed mode arrive in order, with the counters of both layers equal to the writer's, if and only if at every feed the undrained plain bytes are within the size limit and no feed is open |
| `Transport.CompressedAnyCut` | mysql-core/src/connection/packet.rs:138-295 | single-frame payloads that are within the size limit as a whole arrive for every cut of the compressed bytes |
| `Transport.CompressedLimit` | mysql-core/src/connection/packet.rs:279-288 | one feed of a longer plain stream is refused as too large and leaves no packet |
| `Transport.SequenceNumbersOverRuns` | mysql-core/src/connection/packet.rs:348-364 | over every successful run of sends, receives and takes, the frames of each layer in both directions together are numbered consecutively modulo 256, and each counter has advanced by their number |
| `Transport.NumbersSinceReset` | mysql-core/src/connection/packet.rs:69-88 | after a reset the i-th frame carries i mod 256 and each counter is its number of frames mod 256 |
| `SmallReads.TooLongNeverArrives` | mysql/src/connection.rs:274-302 | in plain mode, with reads of at most 4096 bytes, payloads of which one has 2^24-1+4092 bytes or more do not arrive as they were sent, however the reads fall |
| `SmallReads.ReceivableExactly` | mysql/src/connection.rs:274-302 | in plain mode, some sequence of such reads delivers the payloads if and only if none of them is that long |
| `WireFormat.ThreeBytes` | mysql-core/src/connection/packet.rs:18-26 | the three bytes of a length, least significant first |
| `WireFormat.SingleFrameBytes` | mysql-core/src/connection/packet.rs:99-124 | a payload of less than 2^24-1 bytes on the wire: three bytes of length, one of number, the payload |
| `WireFormat.LongPayloadBytes` | mysql-core/src/connection/packet.rs:99-124 | a longer one: 255, 255, 255, the number, the first 2^24-1 bytes, and the frames of the rest with the next number modulo 256 |
| `WireFormat.IncompleteExactly` | mysql-core/src/connection/packet.rs:302-324 | a buffer without a complete frame is left alone, unless its header already announces more than the limit: then error 2020 |
| `WireFormat.WrongNumber` | mysql-core/src/connection/packet.rs:348-364 | a frame with another number than expected closes the stream, with error 2013 if the number is 0 and 2014 otherwise |
| `WireFormat.PayloadExactly` | mysql-core/src/connection/packet.rs:366-392 | what becomes of any written payload in front of any bytes: refused with 2020 if above the limit; raised as the server's error if its first byte is 0xFF; queued otherwise |
| `WireFormat.ErrorBehindPayloads` | mysql-core/src/connection/packet.rs:386-392 | an ERR packet behind deliverable payloads is raised, and those are kept |
| `WireFormat.FeedRaises` | mysql-core/src/connection/packet.rs:187-206 | the same for a feed in plain mode: the error is returned, the packets before it are queued, the bytes after it dropped |
| `WireFormat.CompressedFeedRaises` | mysql-core/src/connection/packet.rs:187-206 | the same in compressed mode, with both counters |
| `WireFormat.PlainFeedWithLeftovers` | mysql-core/src/connection/packet.rs:187-206 | in plain mode inflated bytes that are left over are parsed before the received ones |
| `WireFormat.FeedCloses` | mysql-core/src/connection/packet.rs:91-96 | a refused stream is emptied in both directions, and keeps its counters |
| `WireFormat.CompressedFrameBytes` | mysql-core/src/connection/packet.rs:141-177 | the seven header bytes and the body of a compressed frame, which is deflated if and only if that makes it shorter |
| `WireFormat.IncompleteInflates` | mysql-core/src/connection/packet.rs:209-236 | without a complete compressed frame nothing happens |
| `WireFormat.CompressedFrameExactly` | mysql-core/src/connection/packet.rs:238-290 | what becomes of a complete compressed frame, check by check, with the error codes and the next number |
| `WireFormat.CompressedFeedFails` | mysql-core/src/connection/packet.rs:256-275 | a body zlib cannot inflate stays in the buffer; other errors empty the stream |
| `WireFormat.FailedWrite` | mysql-core/src/connection/packet.rs:148-153 | where zlib fails, the frames before are queued and counted, and the error is 2000 |
| `WireFormat.PiecesAreFull` | mysql-core/src/connection/packet.rs:141-145 | every compressed piece but the last carries 2^24-1 plain bytes |
| `Protocol.MysqlPacket.Read` | mysql-core/src/protocol.rs:46-73 | returns the next bytes and moves past them, or fails without moving |
| `Protocol.MysqlPacket.ReadAll` | mysql-core/src/protocol.rs:76-80 | returns the rest and moves to the end |
| `Protocol.MysqlPacket.Advance` | mysql-core/src/protocol.rs:83-105 | succeeds if and only if the target is inside the packet; a failure does not move |
| `Protocol.MysqlPacket.ReadUint` | mysql-core/src/protocol.rs:120-149 | little-endian value of the given width, or an error |
| `Protocol.MysqlPacket.ReadLengthEncodedInteger` | mysql-core/src/protocol.rs:170-187 | refines the pure decoder, with NULL, the error cases and the position after each |
| `Protocol.MysqlPacket.ReadLengthCodedString` | mysql-core/src/protocol.rs:190-196 | refines the pure decoder of an optional byte string |
| `Protocol.LenencIntRoundTrip` | mysql-core/src/connection.rs:721-737 | every encoded integer decodes to itself and exactly its code is consumed, whatever surrounds it |
| `Protocol.LenencPrefixFree` | mysql-core/src/connection.rs:721-737 | no code is a prefix of another |
| `Protocol.CellRoundTrip` | mysql-core/src/protocol.rs:190-196 | a NULL or a byte string of any length decodes to itself |
| `Protocol.RowRoundTrip` | mysql-core/src/connection/result.rs:212-241 | any row of NULLs and byte strings decodes to itself and consumes exactly its bytes |
| `Protocol.RowIsNotAControlPacket` | mysql-core/src/protocol.rs:204-233 | no row packet is classified as EOF or ERR |
| `Protocol.ColumnRoundTrip` | mysql-core/src/protocol.rs:279-318 | a laid-out column definition parses to its fields, whatever trails it |
| `Protocol.ColumnIsNotAnError` | mysql-core/src/protocol.rs:231-233 | no column definition is classified as ERR |
| `PacketFormat.LenencBytes` | mysql-core/src/connection.rs:721-737 | the bytes of the four forms of a length-encoded integer |
| `PacketFormat.LenencExactly` | mysql-core/src/protocol.rs:170-187 | what the first byte decides: a value, NULL, an error, or the width of what follows |
| `PacketFormat.CellExactly` | mysql-core/src/protocol.rs:190-196 | a value is the NULL marker, or as many bytes as announced; anything else is an error |
| `PacketFormat.NullMarker` | mysql-core/src/protocol.rs:190-196 | a value is NULL if and only if its first byte is 251 |
| `ResultSet.FeedKeepsInv` | mysql-core/src/connection/result.rs:98-105 | one packet keeps the reader invariant, never moves the phase back, leaves Done alone, and changes nothing on an error |
| `ResultSet.ReaderInvariant` | mysql-core/src/connection/result.rs:98-241 | over arbitrary packets and errors: converters and fields in step, at most the announced count and equal to it once rows begin; every stored row that wide; phase monotone; Done absorbing |
| `ResultSet.FreshReaderInvariant` | mysql-core/src/connection/result.rs:81-83 | the invariant holds for everything a new reader is fed |
| `PacketFormat.InitialExactly` | mysql-core/src/connection/result.rs:107-129 | how a response starts, by its first byte and length: an OK packet, a request for a file, a column count, or error 2027 |
| `PacketFormat.OkWithoutCount` | mysql-core/src/connection/result.rs:108-118 | an OK packet whose row count is NULL counts no rows; a malformed one changes nothing |
| `PacketFormat.ColumnExactly` | mysql-core/src/connection/result.rs:131-145 | while columns are missing every packet is a column definition or error 2027 |
| `PacketFormat.EndMarker` | mysql-core/src/connection/result.rs:200-210 | an end marker's warnings and status, byte by byte; more results if and only if bit 3 of the status is set |
| `PacketFormat.DescriptionsExactly` | mysql-core/src/connection/result.rs:146-159 | after the columns only an end marker is accepted, and the reader goes on to rows or pauses |
| `PacketFormat.RowsExactly` | mysql-core/src/connection/result.rs:190-198 | among the rows an end marker finishes, any other packet appends a row or is error 2027 |
| `PacketFormat.UnbufferedExactly` | mysql-core/src/connection/result.rs:277-293 | one row at a time: the row is returned and kept alone, the end marker clears the flag |
| `ResultReader.MySQLResult.FeedPacket` | mysql-core/src/connection/result.rs:98-105 | refines one step of the phase machine and keeps its invariant |
| `ResultReader.MySQLResult.FeedInitialPacket` | mysql-core/src/connection/result.rs:107-129 | OK, LOAD DATA and result-set headers, with the state after each |
| `ResultReader.MySQLResult.FeedOkPacket` | mysql-core/src/connection/result.rs:108-118 | takes over counts, status and message, and leaves the unbuffered flag set |
| `ResultReader.MySQLResult.TakeOver` | mysql-core/src/connection/result.rs:108-118 | every field of the packet ends up in the reader, and nothing else changes |
| `ResultReader.MySQLResult.FeedDescriptionPacket` | mysql-core/src/connection/result.rs:131-159 | adds a column or moves on to the rows; which errors leave the reader unchanged |
| `ResultReader.MySQLResult.CheckPacketIsEof` | mysql-core/src/connection/result.rs:200-210 | recognises the end of the rows and takes over its status |
| `ResultReader.MySQLResult.ReadRowFromPacket` | mysql-core/src/connection/result.rs:212-241 | the loop decodes one value per converter; `ResultEncoding.RowReadsBack` says which values those are |
| `ResultReader.MySQLResult.FeedRowPacket` | mysql-core/src/connection/result.rs:190-198 | appends a row or finishes |
| `ResultReader.MySQLResult.ReadRowdataPacketUnbuffered` | mysql-core/src/connection/result.rs:277-293 | gives one row or the end, clearing the unbuffered flag at the end |
| `ResultReader.MySQLResult.ReadFrom` | mysql-core/src/connection/result.rs:246-254 | the loop consumes exactly the packets the response needs |
| `ResultReader.MySQLResult.FinishUnbufferedQuery` | mysql-core/src/connection/result.rs:296-305 | the loop throws away rows through the EOF |
| `ResultAgreement.BufferedAndUnbufferedAgree` | mysql/src/connection.rs:426-468 | on every packet stream, reading at once and row by row agree if and only if the response is not a complete OK packet; agreeing means: same success or same error, same rows, same packet to stop at, same status, warnings and more-results flag |
| `ResultAgreement.DrainReachesTheEnd` | mysql-core/src/connection/result.rs:296-305 | draining stops where fetching all rows would, with the same outcome |
| `ResultAgreement.FetchSomeThenRest` | mysql/src/connection.rs:448-468 | fetching n rows and then the rest ends where fetching all does, and the rest are the rows after the first n |
| `ResultAgreement.DrainAfterSomeRows` | mysql-core/src/connection/result.rs:277-305 | on a response that buffered reading accepts, after any number of fetched rows, draining consumes exactly the packets buffered reading would, if and only if the response is not an OK packet |
| `ResultEncoding.EofRoundTrip` | mysql-core/src/protocol.rs:403-420 | an encoded EOF packet is recognised and parses to its warnings and status |
| `ResultEncoding.OkRoundTrip` | mysql-core/src/protocol.rs:367-392 | an encoded OK packet is recognised and parses to its counts, status, warnings and message |
| `ResultEncoding.ReadOk` | mysql-core/src/connection/result.rs:107-118 | reading an OK answer consumes one packet and takes over every field; more results by bit 3 of the status; the row count as a signed 64-bit integer; the unbuffered flag stays set |
| `ResultEncoding.ReadEncoded` | mysql-core/src/connection/result.rs:98-241 | any encoded result set, in front of any packets, is read completely, leaving those packets, and the reader then shows exactly its rows, columns, status and warnings |
| `ResultEncoding.FieldReadsBack` | mysql-core/src/protocol.rs:279-318 | each of the six strings and five numbers of a column definition is found where it belongs |
| `ResultEncoding.ValueReadsBack` | mysql-core/src/connection/result.rs:161-188 | from the column definition alone: which cells are raw bytes, and in which character set the others are read |
| `ResultEncoding.RowReadsBack` | mysql-core/src/connection/result.rs:212-241 | a row packet decodes, cell by cell, to NULL for NULL and otherwise to the cell's own bytes, raw or as text of the column's type |
| `ResultEncoding.ReadBackShows` | mysql-core/src/connection/result.rs:98-241 | the finished reader shows the result set: every value, every column, the final status, warnings and more-results flag |
| `ResultEncoding.PacketsAreNotErrors` | mysql-core/src/protocol.rs:231-233 | no packet of a result set is classified as ERR on the way |
| `EndToEnd.NextPacketIsComing` | mysql/src/connection.rs:274-302 | receiving bytes only when no packet is queued gives the same packets in the same order as receiving everything first |
| `EndToEnd.PumpDelivers` | mysql/src/connection.rs:364-388 | the loop that interleaves receiving and reading gives the reader what reading the complete queue would, and leaves the same packets |
| `EndToEnd.PumpRowsDelivers` | mysql/src/connection.rs:448-468 | the loop that fetches rows while receiving gives the rows that fetching from the complete queue would |
| `EndToEnd.ResultSetEndToEnd` | mysql/src/connection.rs:353-388 | a result set, encoded, framed and received in any cut of the bytes without an open feed, gets through: read at once, its rows value by value, its columns and final status, with the reader done; read row by row, the same rows and outcome; nothing left over |
| `EndToEnd.AnyCutGetsThrough` | mysql/src/connection.rs:353-388 | if every packet fits in one frame, the bytes may be cut anywhere |
| `EndToEnd.CompressedResultSetEndToEnd` | mysql-core/src/connection/packet.rs:138-295 | the same through the compressed layer, when every feed is within the size limit and none is open |
| `EndToEnd.AnyCompressedCutGetsThrough` | mysql-core/src/connection/packet.rs:138-295 | if every packet fits in one frame and all of them in the size limit, the compressed bytes may be cut anywhere |
| `Transactions.QueryKeepsWork` | mysql/src/connection.rs:471-481 | whatever a statement's fate, also when its reply is rejected, awaited by nobody or mistaken: work is pending in one place or committed, only executed committing statements commit pending work, and understood replies keep the client's status up to date |
| `Transactions.RollbackDirtyClears` | mysql/src/connection.rs:705-713 | clearing commits nothing; a successful one clears the flag and ends the server's transaction if and only if there was none or the client knew of it; a failed one keeps the flag |
| `Transactions.BeginCommitsExactly` | mysql/src/transaction.rs:61-86 | beginning commits nothing, in any outcome, unless START TRANSACTION reaches the server over a transaction hidden from the client, and then exactly the work pending there |
| `Transactions.BeginStartsEmpty` | mysql/src/transaction.rs:61-86 | a started transaction is empty and unmarked, no outcome adds pending work, and work that stays pending keeps its mark |
| `Transactions.BeginStaysUpToDate` | mysql/src/transaction.rs:61-86 | with understood replies the client's status stays up to date through all three statements |
| `Transactions.BeginRefusesExactly` | mysql/src/transaction.rs:64-69 | the already-in-a-transaction error is reported if and only if a ROLLBACK was needed and answered by a stale OK that reports a transaction |
| `Transactions.NestedBeginDiscards` | mysql/src/transaction.rs:52-69 | beginning inside an open transaction discards its work |
| `Transactions.FatesMean` | mysql/src/connection.rs:471-481 | what each fate of a statement means for the client: success, open or closed, the status it believes |
| `Transactions.ClosedRefuses` | mysql/src/connection.rs:471-481 | on a closed connection a statement fails and changes nothing |
| `Transactions.AutocommittedWork` | mysql/src/connection.rs:471-481 | outside a transaction, with autocommit, work is committed at once |
| `Transactions.SavepointsMean` | mysql/src/transaction.rs:129-133 | going back to a savepoint gives up part of the pending work and commits none |
| `Transactions.GuardedWork` | mysql/src/transaction.rs:61-102 | what is done between begin and commit is committed, all of it and nothing else; rolled back, none of it; nothing stays pending or marked |
| `Transactions.GuardEnds` | mysql/src/transaction.rs:89-156 | finishing a guard never marks the connection, whatever becomes of the statement; dropping one always does and sends nothing |
| `Transactions.Connection.QueryStatement` | mysql/src/connection.rs:471-481 | whole effect of a statement on the connection and the database, for every fate of the statement and its reply |
| `Transactions.Connection.RollbackDirtyTransaction` | mysql/src/connection.rs:705-713 | whole effect of clearing |
| `Transactions.Connection.MarkTransactionDirty` | mysql/src/connection.rs:694-696 | only the flag changes |
| `Transactions.Transaction.BeginWith` | mysql/src/transaction.rs:61-86 | whole effect of beginning, including every early error and the refusal |
| `Transactions.Transaction.StartOn` | mysql/src/transaction.rs:70-86 | whole effect of setting the isolation level and starting |
| `Transactions.Transaction.Finish` | mysql/src/transaction.rs:89-102 | the guard counts as finished before the statement is sent, so a failed COMMIT sets no flag |
| `Transactions.Transaction.Drop` | mysql/src/transaction.rs:148-156 | an unfinished guard leaves the flag, a finished one nothing |
| `Pool.PoolManager.Acquire` | mysql/src/pool.rs:284-310 | the loop pops idle connections, newest first, until one is healthy; otherwise a new connection or a refusal, with the count after each; `Pool.LentByTheClock` says what healthy is |
| `Pool.PoolManager.Return` | mysql/src/pool.rs:313-339 | a returned connection is dropped, or cleaned and kept; `Pool.ReturnedByTheClock` says when |
| `Pool.PoolManager.EvictExpired` | mysql/src/pool.rs:342-353 | the loop keeps the others in their order; `Pool.SweepByTheClock` says which |
| `Pool.NewestHealthy` | mysql/src/pool.rs:284-296 | what is taken from the idle list is its newest healthy connection; everything newer was unhealthy and is dropped, everything older stays; nothing is taken if and only if nothing is healthy |
| `Pool.AcquireExactly` | mysql/src/pool.rs:284-310 | a client is refused if and only if nothing idle is healthy and the count is at its maximum or connecting fails; every attempt to connect is counted, also a failed one |
| `Pool.SweepExactly` | mysql/src/pool.rs:342-353 | a sweep keeps a connection if and only if it is within both time limits |
| `Pool.SweepSplits` | mysql/src/pool.rs:342-353 | a sweep keeps the order, and no connection's fate depends on another's |
| `Pool.SweepByTheClock` | mysql/src/pool.rs:342-353 | a sweep keeps a connection if and only if it is less than the lifetime since its creation and less than the idle time since it became idle |
| `Pool.LentByTheClock` | mysql/src/pool.rs:284-310 | what is lent out is the newest idle connection that is open and within both limits; without one, a new connection or error 2003, with the count after each |
| `Pool.ReturnedByTheClock` | mysql/src/pool.rs:313-339 | a returned connection is kept if and only if it is open, the rollback it may need succeeds and it is within its lifetime; it is then idle from now on and its age goes on |
| `PoolRuns.StartedIsSafe` | mysql/src/pool.rs:80-123 | a started pool satisfies the invariant, whatever its setup statements left behind |
| `PoolRuns.ReturnedIsGood` | mysql/src/pool.rs:313-339 | what goes back to the idle list is unmarked, is the same connection, and is clean if replies were understood |
| `PoolRuns.ManageReturn` | mysql/src/pool.rs:313-339 | handling a return keeps the invariant, with the count above 0 before it |
| `PoolRuns.StepIsSafe` | mysql/src/pool.rs:249-353 | each of the eleven kinds of step keeps the invariant, whatever clients send and whatever becomes of the replies |
| `PoolRuns.RunIsSafe` | mysql/src/pool.rs:80-353 | over every interleaving: idle + active within the maximum, connections outside the manager at most active, every connection in exactly one place, no idle connection marked |
| `PoolRuns.ReturnNeverSaturates` | mysql/src/pool.rs:314 | the saturating decrement never saturates |
| `PoolRuns.OneOwner` | mysql/src/pool.rs:199-228 | no connection is ever owned twice |
| `PoolRuns.WhoCanAct` | mysql/src/pool.rs:249-353 | nothing a client or the manager can do is left out of the runs |
| `PoolRuns.AcquireServed` | mysql/src/pool.rs:284-310 | an acquire is answered, if anybody still waits, with the manager's decision; a new connection is made if and only if nothing idle is healthy and the count is below its maximum |
| `PoolRuns.ReturnServed` | mysql/src/pool.rs:313-339 | a return takes one off the count, and the connection is idle if it is kept |
| `PoolRuns.SendsMean` | mysql/src/connection.rs:471-481 | a client's statement changes its own connection and what is committed, and nothing else |
| `PoolRuns.OthersMean` | mysql/src/pool.rs:342-353 | asking, sweeping and a lost answer change one place each |
| `PoolRuns.AbandonMeans` | mysql/src/transaction.rs:148-156 | an abandoned guard marks its connection and dooms exactly the work pending there |
| `PoolRuns.GiveBackExactly` | mysql/src/pool.rs:208-228 | a dropped connection goes into the channel if and only if it is open and the channel, of twice the maximum size, has room |
| `PoolRuns.TakenAndDiscarded` | mysql/src/pool.rs:151-205 | receiving a connection restarts its lifetime; discarding one only forgets it |
| `PoolRuns.CloseExactly` | mysql/src/pool.rs:249-281 | closing drops the idle connections and the channel, and the manager does nothing more |
| `PoolPromises.PromiseStep` | mysql/src/transaction.rs:89-156 | in every safe state and for every connection: its abandoned work is uncommitted after a step if and only if it was before and the step is not an executed commit on that connection while abandoned work is pending there |
| `PoolPromises.PromiseExactly` | mysql/src/transaction.rs:89-156 | over every run and for every connection: its abandoned work has stayed uncommitted if and only if no step of the run was such a commit on that connection, whatever happened on the others |
| `PoolPromises.AbandonedExactly` | mysql/src/transaction.rs:89-156 | over every run: no abandoned work at all is committed if and only if no step was such a commit |
| `PoolPromises.CarefulKeepsPromise` | mysql/src/connection.rs:694-713 | a commit sent while the connection is not marked dirty is never such a commit |
| `PoolPromises.AbandonedStaysAbandoned` | mysql/src/transaction.rs:148-156 | if commits on a connection are sent only while it is not marked, work pending there when a guard was dropped is never committed, whoever uses the connection, whatever becomes of the replies and whatever other connections do |
| `PoolPromises.OuterGuardCommitsAbandonedWork` | mysql/src/transaction.rs:143-156 | a concrete sequence: nested guard, inner dropped, outer commits the inner's work |
| `PoolPromises.KeptExactly` | mysql/src/pool.rs:313-339 | a connection kept on return has no server transaction if and only if none was hidden from the client |
| `PoolPromises.IdleExactly` | mysql/src/pool.rs:313-339 | over every run: no idle connection ever has a server transaction if and only if none had one at the start and none was given back with a hidden one |
| `PoolPromises.IdleConnectionsAreUnmarked` | mysql/src/pool.rs:313-339 | in every run, every idle connection has a clear dirty flag |
| `PoolPromises.IdleConnectionsAreClean` | mysql/src/pool.rs:313-339 | in every run that starts clean and in which clients learn the outcome of every statement, idle connections have a clear flag and no transaction on either side |
| `PoolPromises.UnreadReplyIsCommittedLater` | mysql/src/pool.rs:313-339 | a concrete sequence: work whose reply was rejected, the connection kept idle without a ROLLBACK, and the next `begin` committing that work |
| `Escaping.SevenPassesAreOne` | mysql-core/src/converters.rs:153-162 | the seven sequential replacements are one character-wise map |
| `Escaping.EscapeTable` | mysql-core/src/converters.rs:153-162 | the seven escaped characters and what each becomes; every other one stays; with NO_BACKSLASH_ESCAPES only the quote is doubled |
| `Escaping.EscapeIsCharMap` | mysql-core/src/connection.rs:606-612 | the same in both server modes |
| `Escaping.EscapedLiteralReadsBack` | mysql-core/src/connection.rs:606-617 | in both modes the server's lexer reads quote, escaped text, quote, rest as exactly the string and the rest, if and only if the rest does not start with a quote |
| `Templating.Mogrify` | mysql/src/connection.rs:808-850 | the loop computes `Mogrified`: segments interleaved with literals that are never rescanned if placeholders and arguments are equally many, otherwise the error that applies |
| `Templating.LiteralsInOrder` | mysql/src/connection.rs:815-819 | one literal for each argument, in the order of the arguments |
| `Templating.FirstFailure` | mysql/src/connection.rs:815-819 | the error is that of the first argument without a literal |
| `Templating.SubstitutionExactly` | mysql/src/connection.rs:808-850 | for any segments and arguments: the k-th literal stands, by position, between segment k and segment k+1, and nothing else is in the text; another number of arguments is error 2034 |
| `Templating.OtherOutcomes` | mysql/src/connection.rs:808-850 | without arguments the query stays as it is; the error of the first argument without a literal comes before all else |
| `Templating.PlainText` | mysql/src/connection.rs:834-840 | a percent sign followed by neither `s` nor another one stays as it is, also at the end |
| `Templating.PlainPrefix` | mysql/src/connection.rs:820-840 | the same in front of any template |
| `Templating.TemplateRoundTrip` | mysql/src/connection.rs:808-850 | doubling percent signs in any segments and joining them with `%s` is undone by reading the template |
| `Templating.DoublingIsIdentity` | mysql/src/connection.rs:808-850 | doubling every percent sign and substituting nothing is the identity |
| `Batching.ExecuteMany` | mysql/src/cursor.rs:103-165 | the loop sends the statements, and returns the total or the first error, of the batching function; no rows send nothing |
| `Batching.ContinuePartitions` | mysql/src/cursor.rs:145-163 | from any point of the loop, pending and remaining rows are partitioned in order |
| `Batching.RowsArePartitioned` | mysql/src/cursor.rs:132-165 | each row is in exactly one statement, in order; none is without a row; with two or more rows a statement is at most 1,024,000 bytes; a batch ends only when the next row does not fit; the total is the sum of the parts |
| `Batching.JoinedByCommas` | mysql/src/cursor.rs:155-159 | rows are separated by the byte 44 and nothing else |
| `Batching.NothingSentExactly` | mysql/src/cursor.rs:103-153 | nothing is sent if and only if there are no rows, the first cannot be rendered, or it does not fit into 1,024,000 bytes; with the outcome of each |
| `Batching.FailureStops` | mysql/src/cursor.rs:153-163 | a failing statement is the last one sent, and its error the outcome |
| `Batching.UnrenderedRowStops` | mysql/src/cursor.rs:145-145 | the first row that cannot be rendered ends the run with its error; exactly the statement being collected is not sent |
| `Batching.PlainInsertsExactly` | mysql/src/cursor.rs:145-163 | every statement is the prefix, its rows joined by commas and the postfix if and only if there are no rows or all of them fit in one statement |
| `Batching.StrayComma` | mysql/src/cursor.rs:155-159 | two rows that do not fit into 1,024,000 bytes: the second statement has the byte 44 between prefix and row |
| `TimeValues.AccumulateSeconds` | mysql-core/src/converters.rs:274-279 | the loop sums base-60 parts with saturation and stays in the 64-bit range |
| `TimeValues.ConvertTimedeltaLoop` | mysql-core/src/converters.rs:268-303 | for every input text, a span result is within the type's bounds |
| `TimeValues.TimeRoundTrip` | mysql-core/src/converters.rs:173-189 | reading a printed span gives the span, for every span of at most i64::MAX/1000 microseconds in magnitude |
| `TimeValues.UnconvertibleText` | mysql-core/src/converters.rs:268-303 | a text cannot be read if and only if it has a dot and the at most six characters after the first one are not an optional plus sign and digits; it then comes back unchanged if and only if it has no leading dash |
| `TimeValues.UnconvertibleLosesSign` | mysql-core/src/converters.rs:292 | a concrete such text |
| `TimeFormat.DecimalDigit` | mysql-core/src/converters.rs:275-276 | digits are read from left to right, each adding its value to ten times what is in front |
| `TimeFormat.SignedPart` | mysql-core/src/converters.rs:275-276 | a part of the clock is its digits, with an optional sign, and 0 beyond 64 bits |
| `TimeFormat.OtherPart` | mysql-core/src/converters.rs:275-276 | any other part counts as 0 |
| `TimeFormat.SecondsAreBaseSixty` | mysql-core/src/converters.rs:274-279 | accumulating from the right with weights is reading in base sixty from the left, for any number of parts whose value fits in 64 bits |
| `TimeFormat.WeightsWrap` | mysql-core/src/converters.rs:277 | the weight is computed from 32 bits of the part's number |
| `TimeFormat.FractionReads` | mysql-core/src/converters.rs:280-291 | a fraction of one to six digits is read as if filled with zeros to six |
| `TimeFormat.LongFractionReads` | mysql-core/src/converters.rs:280-291 | digits after the sixth are dropped |
| `TimeFormat.TotalExactly` | mysql-core/src/converters.rs:296-299 | seconds and microseconds make a span, limited to i64::MAX/1000 in either direction |
| `TimeFormat.DashesNegate` | mysql-core/src/converters.rs:270-300 | any number of leading dashes makes the span negative |
| `TimeFormat.ClockWithFraction` | mysql-core/src/converters.rs:268-303 | hours, minutes, seconds and a fraction: the span they stand for |
| `TimeFormat.PrintedForm` | mysql-core/src/converters.rs:173-189 | a span of less than 100 hours, character by character: two digits each of hours, minutes and seconds, six of fraction if there is one, a dash if negative |
| `Auth.AuthConnection.RequestAuthenticationContinue` | mysql-core/src/connection/auth.rs:180-200 | consumes one packet and refines one step of the machine, or asks for more |
| `Auth.AuthConnection.ProcessAuthInitial` | mysql-core/src/connection/auth.rs:202-235 | whole effect of a packet in the initial phase |
| `Auth.AuthConnection.ProcessAuthSwitch` | mysql-core/src/connection/auth.rs:237-294 | whole effect of a plugin switch, plugin by plugin |
| `Auth.AuthConnection.ProcessCachingSha2Fast` | mysql-core/src/connection/auth.rs:296-340 | fast success, full authentication over a secure link, or a key request |
| `Auth.AuthConnection.ProcessCachingSha2PublicKey` | mysql-core/src/connection/auth.rs:342-365 | the encrypted password is sent and the phase returns to the start |
| `Auth.AuthConnection.ProcessSha256Continue` | mysql-core/src/connection/auth.rs:367-423 | whole effect of the sha256 exchange |
| `Auth.StepKeepsInv` | mysql-core/src/connection/auth.rs:180-423 | for any packet: key phases only on an insecure link, with the matching plugin, right after the matching request; one packet written on Send and none otherwise |
| `Auth.AuthenticationRuns` | mysql-core/src/connection/auth.rs:180-423 | the same over every run, also after errors; the packets written are as many as the steps that reported Send |
| `Auth.SecureRunsAvoidKeys` | mysql-core/src/connection/auth.rs:296-423 | on a secure link no run reaches a public-key phase |
| `Auth.EmptyPasswordNeverInKeyPhase` | mysql-core/src/connection/auth.rs:407-408 | no run reaches the sha256 key phase with an empty password |
| `Auth.FullAuthenticationSends` | mysql-core/src/connection/auth.rs:237-423 | what is sent after a switch, and after the full authentication that follows: the password encrypted with the switch's salt for sha256_password and with the old salt for caching_sha2_password |
| `Auth.SwitchSaltIsUsedExactly` | mysql-core/src/connection/auth.rs:255-361 | for any encryption that tells the two salts apart, the encrypted password uses the switch's salt if and only if the plugin is sha256_password or the salt did not change |
| `AuthFormat.PluginNames` | mysql-core/src/auth.rs:157-170 | the four plugins, by the bytes of their names |
| `AuthFormat.SwitchExactly` | mysql-core/src/connection/auth.rs:202-294 | from the bytes of a switch request: what is sent for every plugin, link and password, with the salt of the request; what is stored; error 2059 for an unknown plugin |
| `AuthFormat.FastExactly` | mysql-core/src/connection/auth.rs:296-340 | the results of the fast authentication: 3, 4 over a secure and an insecure link, and the errors |
| `AuthFormat.FastSuccessExactly` | mysql-core/src/connection/auth.rs:180-196 | after a fast success only an OK packet is accepted, and its status taken over |
| `AuthFormat.PublicKeyExactly` | mysql-core/src/connection/auth.rs:342-365 | the key is stored and the password encrypted with it and the stored salt; ERR packets are raised, others are error 2061 |
| `AuthFormat.SecureFullAuthentication` | mysql-core/src/connection/auth.rs:296-340 | over a secure link the full authentication after a switch sends the scramble and then the password with a NUL |
| `AuthFormat.Sha256FirstExactly` | mysql-core/src/connection/auth.rs:367-400 | a first extra packet of sha256_password: the salt is stored, and the password, [0] or [1] sent |
| `AuthFormat.Sha256KeyExactly` | mysql-core/src/connection/auth.rs:402-423 | the answer to the key request, with a key in the packet, a stored one, or none |
| `AuthFormat.OtherPackets` | mysql-core/src/connection/auth.rs:202-235 | extra data for another plugin is error 2061, an ERR packet is raised, any other packet is success |
| `Handshake.Server.GetServerInformation` | mysql-core/src/connection.rs:431-536 | the parse with a moving index refines the layout function, errors keeping the fields read so far |
| `Handshake.Server.GetFixedPart` | mysql-core/src/connection.rs:431-536 | thread id, first salt part and lower capabilities |
| `Handshake.Server.GetExtendedPart` | mysql-core/src/connection.rs:431-536 | language, status, upper capabilities and second salt part |
| `Handshake.Server.GetPlugin` | mysql-core/src/connection.rs:431-536 | the plugin name up to a NUL or the end |
| `Handshake.SaltLengthsAgree` | mysql-core/src/connection.rs:503 | max(12, L-9) + 1 = max(13, L-8) for every declared length |
| `Handshake.GreetingRoundTrip` | mysql-core/src/connection.rs:431-536 | a greeting laid out per Protocol::HandshakeV10 parses to its version, thread id, 32-bit capabilities, status, full salt without the trailing byte, and plugin name |
| `Handshake.PluginAuthBit` | mysql-core/src/connection.rs:526 | the plugin name is read if and only if bit 19 of the capabilities is set |
| `Handshake.RefusedExactly` | mysql-core/src/connection.rs:431-536 | exactly which packets are refused, by their length and the end of the version, all with error 2012 |
| `Handshake.FixedPartIsKept` | mysql-core/src/connection.rs:431-536 | what has been read before a refusal is kept |
| `Handshake.FixedThenBlock` | mysql-core/src/connection.rs:431-536 | the fixed part, offset by offset from the NUL after the version |
| `Handshake.BlockExactly` | mysql-core/src/connection.rs:431-536 | the block after the lower capabilities, offset by offset: language, status, upper capabilities, the second part of the salt if it is there completely, and the plugin name |
| `Handshake.NoBlock` | mysql-core/src/connection.rs:431-536 | without the block only the fixed part is known |

## Left out

- Sockets, TLS, timeouts, task scheduling: bytes arrive as chunks, packets leave on a queue, and the pool's concurrency is the set of all interleavings of its steps.
- Inside of zlib, hashes, RSA, Ed25519, character decoding, decimal and calendar types: values are functions passed in, or kept as encoding, type code and bytes.
- Error messages: errors keep their class and code; an ERR packet is kept as its raw bytes.
- Decoding of a column's text: names are kept as bytes with the charset that applies; `description` and `get_column_length` are easy lookups.
- LOAD DATA LOCAL file reading, option files, charset and constant tables, `call_procedure`, the insert regular expression, `dump_packet`.
- Resuming `read_query_result` after it asked for more data: the code loses its partial result there.
- Cursor fetch and scroll methods, dictionary cursors, draining of several result sets before a command.
- `init_unbuffered_query` reporting -1 affected rows.
- Pool waiting, progress and true connection lifetime: `active_count` never comes down after a failed connect, a discard or a lost return, so only safety holds.
- The server session beyond transactions: savepoints are one statement that gives up part of the pending work; changing autocommit on a lent connection is not modelled.
- A guard that is leaked instead of dropped, which the language allows but the crate does not do.
- Building the authentication packet, and the plugins `mysql_old_password`, `client_ed25519` and `dialog`, which are one other-plugin case here.
- Escaping of values other than strings, and nested lists under NO_BACKSLASH_ESCAPES.
- `MysqlPacket::rewind`, and wrap-around of a position beyond 2^64: reading too far gives the same error either way.
- PoolPromises.AbandonedStaysAbandoned: holds if nothing commits on the connection while it is marked dirty; the exact condition over runs is `PoolPromises.PromiseExactly`.
- EndToEnd.ResultSetEndToEnd: leaves out open feeds, where the code delivers a packet in parts (`Transport.PlainDelivery` is exact).
