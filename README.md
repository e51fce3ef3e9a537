# SwiftServer core, modelled in Dafny

This project models the core of SwiftServer, a small HTTP/1.1 server written in Swift on
Foundation streams, and proves properties of the model. The modelled core consists of:

- the request-head parser that accumulates inbound chunks up to an 8 KiB bound until the
  first CRLF CRLF, and the driver loop `parseRequest` that feeds it;
- the request-line and field-line splitter `RequestHeaderInfo`, with header names normalised
  by `HttpHeaderKey`, and the older copy of that splitter;
- `HTTPStatus`: code validity, the five families, the reason-phrase table, `description`,
  equality and hashing;
- `InternetAddress` and `SocketAddress`: dispatch of address text to the IPv4 or IPv6 parser,
  and the byte layout of the `sockaddr` record with its big-endian port;
- the output writer `OutputStream.Writer`: one pending-write slot, the partial-write loop,
  an idempotent `finish` and an event handler;
- the input bridge `AsyncThrowingDataStream(inputStream:bufferSize:)`: read bursts that yield
  fixed-size, zero-padded chunks, the `isReading` guard, the event switch and `onTermination`;
- `WebServer`'s `start`/`stop` lifecycle and the per-connection `serve`.

Pure code (splitting, status tables, address records) is modelled as datatypes, functions and
lemmas. Code that changes state in place is modelled as classes:

- `HttpHeaderParser`, with its `Parse` method proved equal to the function `Step`;
- `Writer`, `InputBridge` and `WebServer`, with the streams, continuations, socket and task
  they drive.

Each method's `ensures` states the fields it changes and what its out-parameters mean. The
write and read loops state how many `write` or `read` calls they make in terms of the results
those calls returned: a further call only while bytes are left to write, or while the last read
returned more than 0 and bytes are still available. What a stream itself holds beyond what the
writer and the bridge use (its error after a successful call, for instance) is stated only where
the method touches it.

An output stream's `write` and an input stream's `read` are left open by the model. A write
may accept any prefix of the data or fail with -1. A read may take any leading part of the
buffered bytes, up to the buffer size, or return 0 or -1. The contracts therefore hold
whatever the platform does.

A continuation logs every resumption, and the contracts state how that log grows.

Text is modelled as characters, one per byte (ASCII), and `lowercased()` as ASCII
lowercasing. `inet_pton` is a parameter: a pair of functions from text to address bytes.

Module layout, one file each:

- Base.dfy: `Base`
- Text.dfy: `Text`: search, `components(separatedBy:)`, decoding, case
- HttpHeaderKey.dfy: `HttpHeaderKeys`
- RequestHeaderInfo.dfy: `RequestHeaders`
- HeaderParser.dfy: `HeaderParsing`
- HttpStatus.dfy: `HttpStatuses`
- InternetAddress.dfy: `InternetAddresses`
- SocketAddress.dfy: `SocketAddresses`
- Streams.dfy: `Streams`
- OutputWriter.dfy: `OutputWriters`
- InputReader.dfy: `InputReaders`
- WebServer.dfy: `WebServers`

The repository holds two definitions named `RequestHeaderInfo`:

- Sources/SwiftServer/Http/RequestHeaderInfo.swift;
- an older copy at line 118 of Sources/SwiftServer/StreamHandling.swift.

The package has one target, so the two copies come from different revisions of the file, and
the parser in Sources/SwiftServer/StreamHandling.swift:188 could be read as calling either one.
The model chooses to pair the header parser with the current copy (`RequestHeaders.Parse`), as
the later revision does. The older copy is `RequestHeaders.LegacyParse`, and its defect is the
single finding below.

## Model

| member | source | states |
|---|---|---|
| Text.IndexFrom | Sources/SwiftServer/StreamHandling.swift:184 | `firstRange(of:)`: the result is an occurrence at or after the start, and every occurrence there is at or after the result, so `None` means there is none |
| Text.Split | Sources/SwiftServer/Http/RequestHeaderInfo.swift:21-24 | `components(separatedBy:)` always yields at least one piece, so the `headerLines.first` guard never throws |
| Text.SplitJoin | Sources/SwiftServer/Http/RequestHeaderInfo.swift:21 | joining the pieces with the separator gives back the text exactly |
| Text.SplitPiecesFree | Sources/SwiftServer/Http/RequestHeaderInfo.swift:21 | no piece contains the separator |
| Text.SplitSingle | Sources/SwiftServer/Http/RequestHeaderInfo.swift:36-37 | there is exactly one piece iff the separator does not occur, and that piece is the text |
| Text.SplitOnElementCount | Sources/SwiftServer/Http/RequestHeaderInfo.swift:25-26 | splitting on one character gives exactly one more piece than there are occurrences of it |
| Text.LowercasedEqual | Sources/SwiftServer/Http/HttpHeaderKey.swift:7 | two texts lowercase to the same text iff they differ only in letter case |
| Text.LowercasedIdempotent | Sources/SwiftServer/Http/HttpHeaderKey.swift:7 | lowercasing twice equals lowercasing once |
| HttpHeaderKeys.FromRawValue | Sources/SwiftServer/Http/HttpHeaderKey.swift:6-8 | the stored text is lowercase (by its type), as long as the raw name and equal to it ignoring case |
| HttpHeaderKeys.FromStringLiteral | Sources/SwiftServer/Http/HttpHeaderKey.swift:16-20 | the literal initialiser gives the same key as `init(rawValue:)` |
| HttpHeaderKeys.KeysEqualIgnoringCase | Sources/SwiftServer/Http/HttpHeaderKey.swift:3-8 | two raw names give equal (so equally hashed) keys iff they differ only in letter case |
| HttpHeaderKeys.FromRawValueIdempotent | Sources/SwiftServer/Http/HttpHeaderKey.swift:6-8 | building a key from a key's own text gives the same key |
| HttpHeaderKeys.ConstantsAreLowercase | Sources/SwiftServer/Http/HttpHeaderKey.swift:10-13 | the four named keys store their literals unchanged |
| HttpHeaderKeys.MixedCaseNamesConstant | Sources/SwiftServer/Http/HttpHeaderKey.swift:6-13 | `Content-Type` and `CONNECTION` give the named keys `contentType` and `connection` |
| Text.Decode | Sources/SwiftServer/Http/RequestHeaderInfo.swift:20 | decoding gives one character per byte, carrying that byte's code, so encoding the text gives the bytes back |
| Text.Lowercased | Sources/SwiftServer/Http/HttpHeaderKey.swift:7 | the lowercased text has the same length, no upper-case letters, equals the text ignoring case, and is the text itself when that has none |
| RequestHeaders.Lines | Sources/SwiftServer/Http/RequestHeaderInfo.swift:20-24 | the decoded header block has at least one line |
| RequestHeaders.RequestLineIsFirstLine | Sources/SwiftServer/Http/RequestHeaderInfo.swift:20-24 | the request line has no CRLF, is a prefix of the decoded text, and is followed by CRLF when shorter than the text |
| RequestHeaders.ParseHead | Sources/SwiftServer/Http/RequestHeaderInfo.swift:19-31 | the head is accepted iff the request line holds exactly two spaces, whatever the field lines are (for both copies); on success the request line is `method + " " + path + " " + protocol`, the three tokens verbatim and space-free |
| RequestHeaders.Parse | Sources/SwiftServer/Http/RequestHeaderInfo.swift:19-41 | `init(data:)`: on success the header map is the left-to-right fold of the field lines cut on `": "`, each kept line overwriting its key |
| RequestHeaders.ThreeTokens | Sources/SwiftServer/Http/RequestHeaderInfo.swift:25-31 | a line that splits into three pieces on spaces is those pieces joined by single spaces, each space-free |
| RequestHeaders.FieldSeparatorFirst | Sources/SwiftServer/Http/RequestHeaderInfo.swift:36 | in `name: value` with `": "` absent from the name, the first separator is the one after the name |
| RequestHeaders.FieldLineOfParts | Sources/SwiftServer/Http/RequestHeaderInfo.swift:36-38 | a line `name: value` whose parts hold no `": "` is kept as (lowercased name, verbatim value) |
| RequestHeaders.FieldLineParts | Sources/SwiftServer/Http/RequestHeaderInfo.swift:36-38 | conversely, a kept line is `name: value` for separator-free parts, and records exactly those |
| RequestHeaders.FieldLineValueWithSeparatorSkipped | Sources/SwiftServer/Http/RequestHeaderInfo.swift:36-37 | a value that itself holds `": "` makes the line be dropped |
| RequestHeaders.FieldLineWithoutSeparatorSkipped | Sources/SwiftServer/Http/RequestHeaderInfo.swift:36-37 | a line without `": "`, the empty line included, is dropped |
| RequestHeaders.HeadersAsEntries | Sources/SwiftServer/Http/RequestHeaderInfo.swift:33-39 | the `forEach` over the field lines equals the left-to-right fold over their (name, value) entries |
| RequestHeaders.MapOfKeys | Sources/SwiftServer/Http/RequestHeaderInfo.swift:34-39 | the folded map holds a key iff some entry names it |
| RequestHeaders.MapOfLastWins | Sources/SwiftServer/Http/RequestHeaderInfo.swift:34-39 | a key's value in the folded map is that of the last entry naming it |
| RequestHeaders.HeadersKeys | Sources/SwiftServer/Http/RequestHeaderInfo.swift:33-39 | the header map holds a key iff some field line is kept and names that key |
| RequestHeaders.HeadersLastWins | Sources/SwiftServer/Http/RequestHeaderInfo.swift:34-39 | a recorded value comes from a line naming the key and no later line names it: later duplicates overwrite earlier ones |
| RequestHeaders.LegacyHeadersOfFreeLines | Sources/SwiftServer/StreamHandling.swift:149-153 | lines that hold no CRLF, split again on CRLF, never give two pieces, so nothing is recorded |
| RequestHeaders.LegacyParse | Sources/SwiftServer/StreamHandling.swift:133-155 | the older `init(data:)`: every head it accepts has an empty header map |
| RequestHeaders.LegacyAgreesOnRequestLine | Sources/SwiftServer/StreamHandling.swift:133-147 | the older copy accepts exactly the heads the current one does, with the same method, path and protocol |
| RequestHeaders.LegacyDropsWellFormedField | Sources/SwiftServer/StreamHandling.swift:150-152 | a head with one field line `name: value` gets exactly that header from the current copy and none from the older one |
| HeaderParsing.Step | Sources/SwiftServer/StreamHandling.swift:177-191 | once ready nothing changes; `maxSizeReached` iff held plus new bytes reach the bound, and it is thrown before anything is appended; the caller's buffer only grows; ready only after the bytes before the first CRLF CRLF parse |
| HeaderParsing.StepAtSeparator | Sources/SwiftServer/StreamHandling.swift:183-189 | at the first CRLF CRLF, the header block is exactly the bytes before it and the bytes after it are appended to the caller's buffer; on a parse error they are still appended and the state stays `moreDataNeeded` |
| HeaderParsing.StepWithoutSeparator | Sources/SwiftServer/StreamHandling.swift:183-184 | without a CRLF CRLF the chunk is only appended to what is held |
| HeaderParsing.HttpHeaderParser.Parse | Sources/SwiftServer/StreamHandling.swift:177-191 | the in-place `parse` leaves the parser, buffer and error exactly as `Step` describes |
| HeaderParsing.ParseRequest | Sources/SwiftServer/StreamHandling.swift:42-56 | the `for try await` loop returns exactly `RequestSpec`: chunks go to the parser until it is ready and to the body afterwards; a parse error or input error is thrown; input ending early throws `inputStreamFinishedBeforeCompleteHeader` |
| HeaderParsing.FeedStoppedAbsorbs | Sources/SwiftServer/StreamHandling.swift:45-48 | once `parse` has thrown, later chunks change nothing |
| HeaderParsing.FeedOneView | Sources/SwiftServer/StreamHandling.swift:45-51 | one more chunk below the bound turns the view of the bytes so far into the view of those bytes followed by the chunk |
| HeaderParsing.FeedView | Sources/SwiftServer/StreamHandling.swift:45-51 | below the bound, what the loop has established depends only on the concatenated bytes, and the body stays empty until the parser is ready |
| HeaderParsing.SplitInvariance | Sources/SwiftServer/StreamHandling.swift:42-56 | two chunkings of the same bytes below the bound give the same request (header and body) or the same error |
| HeaderParsing.WholeViewDone | Sources/SwiftServer/StreamHandling.swift:184-188 | a completed view is a well-formed header block, CRLF CRLF, then the body |
| HeaderParsing.RequestOfWholeInput | Sources/SwiftServer/StreamHandling.swift:42-56 | below the bound, a returned request's header is parsed from the bytes before the first CRLF CRLF, and its body is everything after it in arrival order |
| HeaderParsing.FeedBounded | Sources/SwiftServer/StreamHandling.swift:172-183 | a parser never holds as many bytes as its bound (at most 8191 by default) |
| HeaderParsing.OversizeFails | Sources/SwiftServer/StreamHandling.swift:180-182 | input without CRLF CRLF that reaches the bound fails with `maxSizeReached`, however it is chunked |
| HeaderParsing.BodyCountsTowardsBound | Sources/SwiftServer/StreamHandling.swift:180-183 | body bytes in the same chunk as the header count towards the bound |
| HttpStatuses.Init | Sources/SwiftServer/Http/HTTPStatus.swift:12-23 | succeeds iff 100 ≤ code ≤ 599, keeping code and custom message, and throws `invalidCode` otherwise |
| HttpStatuses.Range | Sources/SwiftServer/Http/HTTPStatus.swift:34-43 | each family's range spans one hundred codes |
| HttpStatuses.FamilyOf | Sources/SwiftServer/Http/HTTPStatus.swift:45-60 | a valid code's family is one whose range holds it; a code outside every range is `serverError` |
| HttpStatuses.FamilyIsTheRangeHoldingTheCode | Sources/SwiftServer/Http/HTTPStatus.swift:34-60 | a status's family is `f` iff `f`'s range holds its code |
| HttpStatuses.FamilyByHundreds | Sources/SwiftServer/Http/HTTPStatus.swift:45-66 | each `is...` property holds iff the hundreds digit of the code is the family's, as in section 15 of RFC 9110 |
| HttpStatuses.IsInformational | Sources/SwiftServer/Http/HTTPStatus.swift:62 | holds iff the code is in 100...199 |
| HttpStatuses.IsSuccessful | Sources/SwiftServer/Http/HTTPStatus.swift:63 | holds iff the code is in 200...299 |
| HttpStatuses.IsRedirection | Sources/SwiftServer/Http/HTTPStatus.swift:64 | holds iff the code is in 300...399 |
| HttpStatuses.IsClientError | Sources/SwiftServer/Http/HTTPStatus.swift:65 | holds iff the code is in 400...499 |
| HttpStatuses.IsServerError | Sources/SwiftServer/Http/HTTPStatus.swift:66 | holds iff the code is in 500...599 |
| HttpStatuses.ExactlyOneClass | Sources/SwiftServer/Http/HTTPStatus.swift:62-66 | exactly one of the five `is...` properties holds |
| HttpStatuses.TableCodesAreValid | Sources/SwiftServer/Http/HTTPStatus.swift:99-177 | every code the reason-phrase table knows is valid |
| HttpStatuses.Message | Sources/SwiftServer/Http/HTTPStatus.swift:8-10 | `message` is the table's phrase, the custom message or `Unknown`, and the table's phrase whenever the code has one |
| HttpStatuses.TableOverridesCustomMessage | Sources/SwiftServer/Http/HTTPStatus.swift:8-10 | for a code in the table, `message` is the table's phrase whatever the custom message |
| HttpStatuses.CustomMessageOutsideTable | Sources/SwiftServer/Http/HTTPStatus.swift:8-10 | for a code outside the table, `message` is the custom message, or `Unknown` without one |
| HttpStatuses.NatToString | Sources/SwiftServer/Http/HTTPStatus.swift:82 | the decimal text of a number is non-empty and all digits |
| HttpStatuses.ParseNatToString | Sources/SwiftServer/Http/HTTPStatus.swift:82 | reading the decimal text back gives the number |
| HttpStatuses.Description | Sources/SwiftServer/Http/HTTPStatus.swift:80-84 | `description` starts with the code in decimal, followed by a space |
| HttpStatuses.DescriptionRoundTrip | Sources/SwiftServer/Http/HTTPStatus.swift:80-84 | the description's first space ends the code, whose digits give the code back, and the message follows it |
| HttpStatuses.Equal | Sources/SwiftServer/Http/HTTPStatus.swift:86-90 | `==` holds iff the statuses agree once the custom message is ignored, and equal statuses hash alike |
| HttpStatuses.Hash | Sources/SwiftServer/Http/HTTPStatus.swift:92-96 | the hash is the code: a 16-bit value from which `init(code:customMessage:)` with the status's message rebuilds the status |
| HttpStatuses.EqualHashesAlike | Sources/SwiftServer/Http/HTTPStatus.swift:86-96 | `==` is an equivalence and equal statuses hash alike |
| HttpStatuses.EqualButDescribedDifferently | Sources/SwiftServer/Http/HTTPStatus.swift:80-90 | statuses equal by code can differ in description through the custom message (code 299) |
| HttpStatuses.FromIntegerLiteral | Sources/SwiftServer/Http/HTTPStatus.swift:68-78 | a valid literal gives that code and no custom message; an invalid one falls back to 200 |
| HttpStatuses.InvalidLiteralIsOk | Sources/SwiftServer/Http/HTTPStatus.swift:68-78 | the fallback is the named status `.ok`, with message `OK` |
| HttpStatuses.NamedStatusIsItsLiteral | Sources/SwiftServer/Http/HTTPStatus.swift:68-78 | the literal of a code in the table is that code with no custom message, and its message is the table's phrase |
| HttpStatuses.NamedStatusCodes | Sources/SwiftServer/Http/HTTPStatus.swift:181-257 | each of the 73 named statuses is exactly its own code with no custom message; that its message is the table's phrase for that code then follows from `Message`'s contract (per code, `NamedStatusIsItsLiteral`) |
| InternetAddresses.Init | Sources/SwiftServer/Socket/InternetAddress.swift:27-45 | text with `.` is IPv4 or rejected, even with a `:`; text with `:` and no `.` is IPv6 or rejected; other text is rejected; the text is kept |
| InternetAddresses.FamilyFollowsText | Sources/SwiftServer/Socket/InternetAddress.swift:29-43 | an accepted address is IPv4 iff its text holds a `.` |
| InternetAddresses.ReparseIdentity | Sources/SwiftServer/Socket/InternetAddress.swift:27-28 | parsing an accepted address's stored text gives the same address |
| InternetAddresses.FromStringLiteral | Sources/SwiftServer/Socket/InternetAddress.swift:48-57 | an accepted literal gives its address; a rejected one falls back to the address parsed from `127.0.0.1` |
| InternetAddresses.Loopback | Sources/SwiftServer/Socket/InternetAddress.swift:59-61 | `.loopback` is an IPv4 address, the bytes `inet_pton` gives for `127.0.0.1`, kept with that text |
| InternetAddresses.LoopbackIsFixedPoint | Sources/SwiftServer/Socket/InternetAddress.swift:48-61 | `.loopback` parses back to itself and is the fallback of every rejected literal; where `inet_pton` reads `127.0.0.1` as the bytes 127, 0, 0, 1 it is exactly that address |
| InternetAddresses.PlainTextFallsBack | Sources/SwiftServer/Socket/InternetAddress.swift:44-54 | a literal with neither `.` nor `:` gives `.loopback` |
| SocketAddresses.PortBytes | Sources/SwiftServer/Socket/SocketAddress.swift:21-29 | `port.bigEndian` occupies two bytes |
| SocketAddresses.PortRoundTrip | Sources/SwiftServer/Socket/SocketAddress.swift:21-29 | reading the two port bytes back, high byte first, gives the port, and every byte pair is the layout of the port it reads as |
| SocketAddresses.Init | Sources/SwiftServer/Socket/SocketAddress.swift:12-32 | total; keeps address and port; the record is 16 bytes with family `AF_INET` (2) or 28 bytes with `AF_INET6` (30), and its first byte is its length |
| SocketAddresses.RecordRoundTrip | Sources/SwiftServer/Socket/SocketAddress.swift:16-31 | decoding the record gives back the IP address bytes unchanged and the port |
| SocketAddresses.RecordPadding | Sources/SwiftServer/Socket/SocketAddress.swift:18-26 | bytes no field fills (`sin_zero`, `sin6_flowinfo`, `sin6_scope_id`) are zero |
| SocketAddresses.PortInNetworkOrder | Sources/SwiftServer/Socket/SocketAddress.swift:21-29 | the port's high byte is at offset 2 and its low byte at offset 3 |
| OutputWriters.ErrorOf | Sources/SwiftServer/Extensions/AsyncOutputWriter+OutputStream.swift:58 | the stream's error is used when there is one; `unknownOutputError` exactly when there is none |
| OutputWriters.ProgressStep | Sources/SwiftServer/Extensions/AsyncOutputWriter+OutputStream.swift:42-60 | one more write of the pending rest keeps the write invariant: the accepted bytes are a longer prefix of the data, and the slot or the continuation's single resumption reflects the result |
| OutputWriters.Writer.WriteOnce | Sources/SwiftServer/Extensions/AsyncOutputWriter+OutputStream.swift:43-58 | one pass takes the slot and writes it once; the continuation is resumed with success when the whole rest was accepted or with the stream's error on -1; otherwise the unwritten rest goes back in the slot |
| OutputWriters.CompletingWriteIsLast | Sources/SwiftServer/Extensions/AsyncOutputWriter+OutputStream.swift:48-53 | the write that completes the data is the last one: the slot is empty afterwards and, unless that write failed, the continuation was resumed with success |
| OutputWriters.Writer.TriggerNextWrite | Sources/SwiftServer/Extensions/AsyncOutputWriter+OutputStream.swift:42-60 | an empty slot does nothing; else the stream received the first bytes of the data, every write but the last left bytes to write and none but the last failed, and either the continuation was resumed exactly once and the slot is empty, or the fuel ran out with the unwritten rest back in the slot; with a stream accepting nothing it never finishes |
| OutputWriters.AcceptedNothing | Sources/SwiftServer/Extensions/AsyncOutputWriter+OutputStream.swift:49-55 | writes that all return 0 accept no bytes |
| OutputWriters.Writer.Write | Sources/SwiftServer/Extensions/AsyncOutputWriter+OutputStream.swift:21-29 | the slot is overwritten, the stream opened when no handler is installed, and the data written as `TriggerNextWrite` states |
| OutputWriters.Writer.OpenIfNeeded | Sources/SwiftServer/Extensions/AsyncOutputWriter+OutputStream.swift:62-90 | schedules and opens the stream only when no handler is installed |
| OutputWriters.Writer.Finish | Sources/SwiftServer/Extensions/AsyncOutputWriter+OutputStream.swift:31-40 | the first call clears handler and slot, without resuming the slot's task, then removes and closes the stream, leaving its bytes and error as they were; later calls change nothing |
| OutputWriters.Writer.HandleEvent | Sources/SwiftServer/Extensions/AsyncOutputWriter+OutputStream.swift:65-85 | `hasSpaceAvailable` writes the slot; `errorOccurred` resumes a waiting task with the stream's error; `endEncountered` resumes it with `closedUnexpectedly` unless finished; without a handler nothing happens |
| OutputWriters.OutputStream.Write | Sources/SwiftServer/Extensions/AsyncOutputWriter+OutputStream.swift:46 | `write` returns -1..count and the stream receives exactly the accepted prefix |
| InputReaders.ErrorOf | Sources/SwiftServer/Extensions/AsyncThrowingDataStream+InputStream.swift:27 | the stream's error is used when there is one; `unknownInputError` exactly when there is none |
| InputReaders.ChunkOf | Sources/SwiftServer/Extensions/AsyncThrowingDataStream+InputStream.swift:49-54 | a yielded chunk is `bufferSize` bytes: the bytes read, then zeros |
| InputReaders.ChunksOfAppend | Sources/SwiftServer/Extensions/AsyncThrowingDataStream+InputStream.swift:51-55 | a further read adds its chunk at the end |
| InputReaders.ChunksOfElements | Sources/SwiftServer/Extensions/AsyncThrowingDataStream+InputStream.swift:51-55 | one chunk per read, chunk `i` built from read `i` |
| InputReaders.ProgressStep | Sources/SwiftServer/Extensions/AsyncThrowingDataStream+InputStream.swift:51-55 | a read after one that returned more than 0 and left bytes available extends the burst: bytes taken in order, one chunk more |
| InputReaders.ProgressStart | Sources/SwiftServer/Extensions/AsyncThrowingDataStream+InputStream.swift:51-54 | the first read starts a burst: its bytes come first off the stream and its chunk is delivered |
| InputReaders.ReadsElements | Sources/SwiftServer/Extensions/AsyncThrowingDataStream+InputStream.swift:52-55 | every read but the last returned more than 0 and left bytes available, and each read took as many bytes as it returned, at most `bufferSize` |
| InputReaders.DrainingReadIsLast | Sources/SwiftServer/Extensions/AsyncThrowingDataStream+InputStream.swift:51-55 | a first read that takes every byte the stream held is the only read of its burst |
| InputReaders.InputBridge.ReadMore | Sources/SwiftServer/Extensions/AsyncThrowingDataStream+InputStream.swift:51-55 | a further read, after one that returned more than 0 while bytes are available, extends the burst and shortens the stream's bytes whenever it returns more than 0 |
| InputReaders.InputStream.Read | Sources/SwiftServer/Extensions/AsyncThrowingDataStream+InputStream.swift:52 | `read` returns -1..`bufferSize` and takes exactly that many of the stream's leading bytes when positive |
| InputReaders.DataContinuation.Yield | Sources/SwiftServer/Extensions/AsyncThrowingDataStream+InputStream.swift:53 | a chunk is delivered while the sequence is open and dropped afterwards |
| InputReaders.DataContinuation.Terminate | Sources/SwiftServer/Extensions/AsyncThrowingDataStream+InputStream.swift:27-30 | only the first termination counts and reports itself, so `onTermination` runs once |
| InputReaders.InputBridge.constructor | Sources/SwiftServer/Extensions/AsyncThrowingDataStream+InputStream.swift:8-45 | installs the handler, then schedules and opens the stream, with nothing read yet |
| InputReaders.InputBridge.OnTermination | Sources/SwiftServer/Extensions/AsyncThrowingDataStream+InputStream.swift:37-41 | clears the event closure, then closes and unschedules the stream |
| InputReaders.InputBridge.ReadLoop | Sources/SwiftServer/Extensions/AsyncThrowingDataStream+InputStream.swift:49-55 | at least one read; another exactly when the previous one returned more than 0 with bytes still available; one padded chunk per read, the bytes taken in order |
| InputReaders.InputBridge.ReadBurst | Sources/SwiftServer/Extensions/AsyncThrowingDataStream+InputStream.swift:48-57 | the loop as `ReadLoop` states, then the sequence finished without error and `onTermination` run, so the sequence ends after the first burst |
| InputReaders.InputBridge.Read | Sources/SwiftServer/Extensions/AsyncThrowingDataStream+InputStream.swift:11-16 | while `isReading` nothing happens; otherwise one burst runs and the flag is clear afterwards |
| InputReaders.InputBridge.HandleEvent | Sources/SwiftServer/Extensions/AsyncThrowingDataStream+InputStream.swift:18-35 | `openCompleted` and `hasBytesAvailable` start a read, or do nothing while one is running; `errorOccurred` finishes with the stream's error as it was when the event came, `endEncountered` finishes without one, and on the first termination either closes the stream and removes it from the run loop, leaving its bytes and error untouched; once the closure is cleared nothing happens |
| InputReaders.InputBridge.Cancel | Sources/SwiftServer/Extensions/AsyncThrowingDataStream+InputStream.swift:37-41 | cancelling terminates the sequence, delivering nothing more; if it had not terminated, `onTermination` runs and closes the stream and removes it from the run loop (the calls gain exactly `close`, `remove`), otherwise the stream sees no call; its bytes and error are untouched |
| WebServers.StartSpec | Sources/SwiftServer/WebServer.swift:16-31 | refused with `alreadyRunning`, changing nothing, while a socket is set; otherwise the socket is set before binding, and the task only after binding succeeds |
| WebServers.RunConsistent | Sources/SwiftServer/WebServer.swift:16-38 | no sequence of `start` and `stop` leaves a task without a socket |
| WebServers.FailedStartBlocks | Sources/SwiftServer/WebServer.swift:17-23 | after a failed start, every later start is refused with `alreadyRunning` and changes nothing until `stop` |
| WebServers.StopPermitsStart | Sources/SwiftServer/WebServer.swift:16-38 | after `stop`, `start` is not refused, and it succeeds iff binding does |
| WebServers.WebServer.Start | Sources/SwiftServer/WebServer.swift:16-31 | the fields follow `StartSpec`: a fresh socket for the address and port, listening iff binding succeeded, a fresh task only then, and the task field untouched after a failed bind |
| WebServers.WebServer.Stop | Sources/SwiftServer/WebServer.swift:33-38 | cancels the task and invalidates the socket when set, then clears both |
| WebServers.WebServer.Deinit | Sources/SwiftServer/WebServer.swift:48-50 | `deinit` behaves as `stop` |
| WebServers.WebServer.Serve | Sources/SwiftServer/WebServer.swift:42-46 | each connection gets a fresh handler, a fresh chunk sequence over its input with the handler's buffer size, and a fresh writer over its output |
| WebServers.Socket.Start | Sources/SwiftServer/Socket/Socket.swift:73-81 | succeeds iff binding succeeds, and only then listens |

## Left out

- Foundation streams, run loops, `CFSocket`, accepting connections, `Task`s and dispatch queues are left out. Events arrive as sequential method calls. A stream's `read`/`write` results are left open within their documented range. The bind result is a parameter of `start`.
- `inet_pton` is a parameter (`InternetAddresses.Pton`). Sources/SwiftServer/Socket/Socket.swift is not part of this model beyond binding (`Socket.Start`) and invalidation (`Socket.Stop`).
- Concurrency is left out. The `isReading` guard is therefore never hit by a second caller. The races the source's queues and tasks allow are not modelled.
- `StreamHandler.handle` and `getResponse` (Sources/SwiftServer/StreamHandling.swift:29-40, 58-80) are string formatting and console output. They are not modelled; the pieces they call are.
- UTF-8 decoding is modelled for one-byte characters only. `lowercased()` is modelled for ASCII letters only.
- The `sockaddr` records are the Darwin layout as byte sequences. Host memory layout is not modelled.
- `HTTPStatus.messages` is a `static var`, but nothing in the repository changes it. It is modelled as a constant lookup.
- Duplicated constant tables (`HttpMethod`, `HttpHeaderKey` in Sources/SwiftServer/StreamHandling.swift:83-116) and Package.swift are left out; so is URL+MimeType.swift.
- OutputWriters.Writer.TriggerNextWrite: the source recurses without bound while the stream accepts nothing. The method therefore takes `fuel`, the most `write` calls it makes, and reports `stalled` when that runs out. What the source does after that many zero-byte writes is not modelled.
- HttpStatuses.FromIntegerLiteral: the debug-build `assertionFailure` is not modelled, only the release-build fallback.
- InternetAddresses.FromStringLiteral: the debug-build `assertionFailure` is not modelled, only the fallback. It requires a platform whose `inet_pton` accepts `127.0.0.1`; without one, building `.loopback` never finishes. Which bytes it gives is left to the platform.
- OutputWriters.Writer.Write: the source's `await` of the continuation is not modelled. The outcome is read off the continuation's log instead.

## Findings

| source | as written | input that shows it | evidently intended | confidence | as-written member | corrected member |
|---|---|---|---|---|---|---|
| Sources/SwiftServer/StreamHandling.swift:150 | each field line is split on `"\r\n"`, which no line holds after the head was split on `"\r\n"`, so no line gives two pieces and `headers` is always empty | `GET / HTTP/1.1\r\nHost: x`: the older copy records no header, the current one records `host: x` | split on `": "`, as Sources/SwiftServer/Http/RequestHeaderInfo.swift:36 does | high, not executed | RequestHeaders.LegacyParse | RequestHeaders.FieldLineOfParts |
