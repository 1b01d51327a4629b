# ESPressio Sockets: a verified model

ESPressio Sockets moves state updates, commands, secured payloads and clock samples over byte
streams between small devices. This project models four connected parts of it and proves what
they promise, over every input, every chunking of a stream, every run and every interleaving.

**State sessions.** Two devices exchange Subscribe, Unsubscribe, Update, Acknowledgement,
Resynchronize and Disconnect. `StateSession` says what each event makes of a session as a function
on values; `StateRuns` and `StateAnswers` prove properties of one session against a peer that may
send anything, from what it may send to what it owes; `StateConvergence`, `StateChannels`, `StateReceiving`, `StateSafety` and `StateTheorems` put two
sessions on two FIFO channels, with any number of reconnections, and prove that they converge, and
`StateDelivery` which messages they take and what a resynchronization restores.
`SocketStateSession` is the session object, updated in place, proved equal to those functions from
bytes to messages.

**Stream decoders.** `Framing` defines reading a stream as frames once, for the packed State and
Event headers, the secure header and the counted Command frames. `FrameDecoder`, `FrameMagic`,
`SocketFrames`, `SecuritySession` and `CommandStructuredMode` prove the five feed loops against it. The State
decoder is proved with callbacks that feed it again to any depth.

**Command protocol and session.** `CommandWire` and `CommandProtocol` are the printer and the
parser, with `KeyOrder` for the ordered map of named values and `WireExamples` for their bytes.
`CommandHost`, `CommandLineMode`, `CommandStructuredMode` and `SocketCommandSession` prove that the
session refines a map from lines to replies and from payloads to responses; `CommandLineReplies` and
`CommandStructuredReplies` say what a client then reads.

**Concurrent machines and servers.** `ClockExchange`, `ClockOffset` and `ClockPending` model the
clock exchange one atomic operation at a time, and `ClockProtocol` the protocol object and its
bytes. `SocketWorker` is the start and stop handshake. `SlotTable`, `SlotRuns`, `SlotClients`, `SlotBound`
and `SocketServer` are the client table the TCP servers keep.

The packed State, Event and clock headers are copied from memory by the code; the model fixes
little-endian byte order for them.

## Where the code does less than one would expect

Each of these comes with a lemma about a concrete input or run, and with the exact condition under
which the code does meet the expectation.

- The size guard of the framed decoders counts bytes of the next frame against the limit of the
  current one (`FrameDecoder.TwoByteChunkIsRejected`). Legal frames with payloads of up to `m` bytes,
  which is at most the limit, are safe under every cutting into chunks of up to `n` bytes if and
  only if `m + n` is at most the limit plus one (`FrameDecoder.SafeChunkSizes`). An adapter that
  reads 512 bytes at a time needs payloads at least 511 bytes below the limit; frames of maximum
  size are safe byte by byte only.
- Structured Command mode throws away buffered bytes of a length prefix when the request limit is
  one or two (`CommandStructuredMode.PrefixIsLost`), and turns down a chunk longer than a frame of
  maximum size when nothing is held (`CommandStructuredMode.BigChunksAreLost`). It serves every
  stream in chunks of up to `n` bytes if and only if the limit is at least three and `n` is at most
  the limit plus four (`CommandStructuredMode.StructuredModeServes`); the TCP server, which reads
  512 bytes at a time, needs a limit of at least 508.
- A line-mode reply can be two lines (`CommandHost.ReplyOfTwoLines`). It is one line if and only if
  the message contains no newline (`CommandHost.ReplyIsOneLine`).
- A session that withdraws a State descriptor does not look for another one that covers the same
  type (`StateTheorems.OverlapBreaksConvergence`). It stays converged if and only if there is none,
  or the publisher does not have the type (`StateTheorems.WithdrawingIsExact`).
- A bound peer that has sent Disconnect stays recorded as disconnected until the session is shut
  down, even if it comes back and is served (`StateAnswers.PeerThatLeftIsServed`). The record says connected if and only if the peer is bound and has not
  taken its leave (`StateAnswers.AvailabilityIsExact`).
- The 32-bit clock sequence comes round (`ClockExchange.OldResponseIsTakenAgain`). No number leads
  to two samples if and only if no more than 2^32 numbers are handed out
  (`ClockExchange.AtMostOnceExactly`).
- The receiver of clock responses loads and clears the pending number in two operations, and may
  erase another request (`ClockPending.OvertakenRequestIsLost`). It does if and only if one with a
  number other than zero is stored in between, and neither cancelled nor replaced by number zero
  before the clear (`ClockPending.OnlyOvertakingLosesRequests`). The TCP client processes
  responses outside the lock under which it builds requests, so this can happen there.
- A clock that is set during an exchange can leave no offset between the bounds that the sample
  gives (`ClockOffset.SettingBackBreaksTheBracket`). Honest samples bracket the true offset if and
  only if the clock was not set back between T1 and T4 (`ClockOffset.BracketIsExact`).
- The 64-bit session identifiers of a server come round as well (`SlotBound.IdentifiersRepeat`).
  With two slots or more, connected clients keep different ones if and only if there are fewer than
  2^64 accepts (`SlotBound.IdsApartExactly`).
- A worker that stops itself and is started again can run two tasks
  (`SocketWorker.SelfStopRunsTwoTasks`). The start is safe if and only if the task that the handle
  names has left (`SocketWorker.RestartIsExact`).
- After a worker has stopped itself a later stop can wait for ever
  (`SocketWorker.SelfStopHangsTheController`), and so can the task itself
  (`SocketWorker.SelfStopHangsTheTask`). A wait does if and only if its handle is stuck
  (`SocketWorker.WaitIsExact`), and in a run in which no worker is started before its old task has
  left, a handle gets stuck if and only if it is stored after its task has left
  (`SocketWorker.HangIsExact`).

## Model

| member | source | states |
|---|---|---|
| Framing.LookIsStable | src/ESPressio_SocketStateFrame.hpp:54-69 | once the front of a stream is decided, later bytes never change it: a whole frame stays that frame, a bad header stays bad |
| Framing.ParseYieldsFrames | src/ESPressio_SocketStateFrame.hpp:54-88 | everything the loop cuts off is a frame: right magic, version and length, whole payload |
| Framing.ParseLeavesLessThanAFrame | src/ESPressio_SocketStateFrame.hpp:54-69 | a good stream leaves an incomplete front, a bad one leaves nothing |
| Framing.ParseConserves | src/ESPressio_SocketStateFrame.hpp:54-89 | frames and leftover together are the input, no byte lost, repeated or moved |
| Framing.ParseFrames | src/ESPressio_SocketStateFrame.hpp:54-89 | frames at the front of any stream come out one by one whatever follows them |
| Framing.ParseIsUnique | src/ESPressio_SocketStateFrame.hpp:54-89 | there is one way to read a stream as frames followed by less than a frame, and the loop finds it |
| Framing.ParseInTwo | src/ESPressio_SocketSecuritySession.hpp:117-135 | reading a stream in two instalments, keeping the leftover, is reading it at once, up to the first bad header |
| Framing.BuildMakesAFrame | src/ESPressio_SocketStateFrame.hpp:98-116 | a built frame is accepted by the reading side and carries exactly the payload |
| Framing.FramingRoundTrip | src/ESPressio_SocketStateFrame.hpp:43-116 | payloads that were framed and concatenated are read back unchanged, in order, with nothing left over |
| Framing.FrameIsExact | src/ESPressio_SocketStateFrame.hpp:54-116 | a frame is magic and version if the format has them, spare bytes, the length of an allowed payload, and the payload, and nothing else is a frame |
| Framing.BadHeaderIsExact | src/ESPressio_SocketStateFrame.hpp:54-69 | a complete header is turned down exactly when no frame begins with it |
| FrameDecoder.ChunksParseAsOne | src/ESPressio_SocketStateFrame.hpp:43-89 | as long as the guard does not fire, pushing chunks delivers what one reading of all bytes delivers and keeps the same leftover |
| FrameDecoder.ChunkIndependence | src/ESPressio_SocketStateFrame.hpp:43-89 | two chunkings of one stream that pass the guard deliver the same frames and end alike |
| FrameDecoder.ResidueIsBounded | src/ESPressio_SocketStateFrame.hpp:43-89 | after an accepted push fewer than limit + 12 bytes are held |
| FrameDecoder.SingleBytesNeverTooLong | src/ESPressio_SocketStateFrame.hpp:46-50 | byte by byte, no stream ever trips the size guard |
| FrameDecoder.PushLeavesLessThanAFrame | src/ESPressio_SocketStateFrame.hpp:43-89 | between pushes the buffer holds neither a whole frame nor a bad header |
| FrameDecoder.ZeroLimitTakesNothing | src/ESPressio_SocketStateFrame.hpp:46-50 | with a limit of zero any byte is rejected and nothing is kept |
| FrameDecoder.TwoByteChunkIsRejected | src/ESPressio_SocketStateFrame.hpp:46-50 | frames of maximum size are not safe when chunks may hold two bytes |
| FrameDecoder.BigPieceIsRejected | src/ESPressio_SocketStateFrame.hpp:46-50 | a legal stream of equal frames, cut byte by byte but for one chunk across the end of the first, is rejected when payload and chunk together are two bytes or more beyond the limit |
| FrameDecoder.SmallFramesNeverTooLong | src/ESPressio_SocketStateFrame.hpp:43-89 | frames whose payloads and chunks together stay within the limit plus one are accepted, from any partial frame on |
| FrameDecoder.SafeChunkSizes | src/ESPressio_SocketStateFrame.hpp:46-50 | for payloads of up to m bytes, legal streams are safe under all chunkings up to a chunk size if and only if m and that size together are at most the limit plus one |
| FrameMagic.MagicIsTheOnlyDifference | src/ESPressio_SocketEventFrame.hpp:37-117 | at equal limit and under any chunking, the Event and State decoders agree on every stream without a wrong magic once it is exchanged: same frames up to the magic, same bytes kept, same verdict, a chunk beyond the guard and a bad version or length included |
| FrameMagic.RetagKeepsPayloads | src/ESPressio_SocketEventFrame.hpp:105-109 | frames that differ in their magic carry the same payloads |
| SocketFrames.BuildersAreExact | src/ESPressio_SocketEventFrame.hpp:125-161 | the builders answer with a frame of the payload, and refuse exactly payloads no receiver with that limit could be sent |
| SocketFrames.GrownInTwo | src/ESPressio_SocketStateFrame.hpp:71-88 | what nested and later pushes take in adds up in arrival order; nothing delivered or refused is forgotten |
| SocketFrames.SocketStateFrameDecoder.Push | src/ESPressio_SocketStateFrame.hpp:43-89 | with callbacks that push again to any depth and nothing rejected, callbacks start in the order of one reading of all bytes in arrival order, each frame once, payloads intact; with plain callbacks it is the shared reading; nested loops end |
| SocketFrames.SocketStateFrameDecoder.DeliverFrames | src/ESPressio_SocketStateFrame.hpp:54-88 | the loop delivers every whole frame at the front even while callbacks grow and shrink the buffer |
| SocketFrames.SocketStateFrameDecoder.CutFrame | src/ESPressio_SocketStateFrame.hpp:55-85 | one turn takes exactly the first frame out before the callback, or nothing, or drops a buffer with a bad header |
| SocketFrames.SocketStateFrameDecoder.SetMaximumPayloadBytes | src/ESPressio_SocketStateFrame.hpp:32-37 | a new limit keeps the buffer only if it could stand under that limit; however often the limit changes the buffer is never a whole frame, and its front is bad exactly if it announces more than the limit now allows |
| SocketFrames.IncompleteIsPartOfAFrame | src/ESPressio_SocketStateFrame.hpp:32-69 | what a push leaves in the buffer is the start of a frame, and the start of a frame is good exactly for limits that allow what it announces |
| SocketFrames.SocketStateFrameDecoder.Reset | src/ESPressio_SocketStateFrame.hpp:91-91 | no byte of the old stream reaches the new one |
| SocketFrames.SocketEventFrameDecoder.Push | src/ESPressio_SocketEventFrame.hpp:37-117 | with a callback that does not push, delivers exactly the frames of the shared reading, keeps its leftover and gives its verdict |
| SecuritySession.FeedInTwo | src/ESPressio_SocketSecuritySession.hpp:117-135 | feeding a + b, or a and then b, hands the same envelopes to the security layer in the same order and ends in the same buffer, fault flag and answer |
| SecuritySession.ChunksFeedAsOne | src/ESPressio_SocketSecuritySession.hpp:117-135 | any chunking amounts to one feed of all the bytes |
| SecuritySession.SendsArrive | src/ESPressio_SocketSecuritySession.hpp:94-135 | what was sent arrives unchanged and in order under any chunking when the receiver's limit is at least the sender's |
| SecuritySession.FaultSticks | src/ESPressio_SocketSecuritySession.hpp:118-129 | after a bad length no later byte changes anything until a reset |
| SecuritySession.SocketSecuritySession.Send | src/ESPressio_SocketSecuritySession.hpp:94-115 | writes one frame exactly if there is a writer and protection succeeded with a non-empty result within the limit, answers what the writer answers, and reports every other case as a failure, except a missing writer |
| SecuritySession.SocketSecuritySession.Append32 | src/ESPressio_SocketSecuritySession.hpp:71-73 | appends the value in little-endian order |
| SecuritySession.SocketSecuritySession.Feed | src/ESPressio_SocketSecuritySession.hpp:117-135 | hands over exactly the envelopes of the stream, passes each answer on, keeps the leftover and faults once on a bad length |
| SecuritySession.SocketSecuritySession.ProcessEnvelope | src/ESPressio_SocketSecuritySession.hpp:61-69 | the security layer sees the envelope once and its answer, payload or failure, goes to the application |
| SecuritySession.SocketSecuritySession.Reset | src/ESPressio_SocketSecuritySession.hpp:137-141 | a reset session is a new one |
| KeyOrder.EmplaceKeepsOrder | src/ESPressio_SocketCommandProtocol.hpp:204-207 | the map of named values stays strictly ordered by key |
| KeyOrder.EmplaceInOrder | src/ESPressio_SocketCommandProtocol.hpp:200-208 | pairs that come in map order end up as they came |
| KeyOrder.FirstPairWins | src/ESPressio_SocketCommandProtocol.hpp:200-208 | of several pairs with one key the first one read is kept |
| CommandWire.GetPutString | src/ESPressio_SocketCommandProtocol.hpp:48-124 | a length-prefixed string is read back, followed by whatever followed it |
| CommandWire.PutGetString | src/ESPressio_SocketCommandProtocol.hpp:110-124 | the bytes a string was read from are the bytes it is written as |
| CommandWire.GetPutRequest | src/ESPressio_SocketCommandProtocol.hpp:138-212 | a printed request is parsed back, whatever bytes follow |
| CommandWire.PutGetRequest | src/ESPressio_SocketCommandProtocol.hpp:171-212 | the bytes a request was parsed from are its printed form |
| CommandWire.GetPutResponse | src/ESPressio_SocketCommandProtocol.hpp:214-246 | a printed response is parsed back, negative codes in two's complement included |
| CommandWire.PutGetResponse | src/ESPressio_SocketCommandProtocol.hpp:227-246 | the bytes a response was parsed from are its printed form |
| CommandProtocol.DecodedWireIff | src/ESPressio_SocketCommandProtocol.hpp:171-212 | the decoder accepts exactly the printed forms of requests with a non-empty path |
| CommandProtocol.RequestRoundTrip | src/ESPressio_SocketCommandProtocol.hpp:138-212 | a request the encoder accepts decodes to the same ID, path and raw text, with every value in its string form |
| CommandProtocol.ResponseRoundTrip | src/ESPressio_SocketCommandProtocol.hpp:214-246 | bytes decode to a response if and only if they are what the encoder makes of it |
| CommandProtocol.CanonicalReencoding | src/ESPressio_SocketCommandProtocol.hpp:138-212 | re-encoding a decoded request gives back the same bytes if and only if the keys on the wire strictly increase |
| CommandProtocol.DecodedNamedLookup | src/ESPressio_SocketCommandProtocol.hpp:200-208 | looking a name up in a decoded request finds the first value on the wire with that name |
| CommandProtocol.PrefixFree | src/ESPressio_SocketCommandProtocol.hpp:171-246 | no proper extension of an accepted request or response is accepted, hence no proper prefix |
| CommandProtocol.Reader.Unsigned | src/ESPressio_SocketCommandProtocol.hpp:74-108 | reads a big-endian number of the width and moves past it, or leaves the offset where it is if too little is left |
| CommandProtocol.Reader.String | src/ESPressio_SocketCommandProtocol.hpp:110-124 | reads a length-prefixed string exactly when that many bytes are left, never past the end |
| CommandProtocol.Reader.Strings | src/ESPressio_SocketCommandProtocol.hpp:185-198 | reads exactly the announced number of strings in order, or fails |
| CommandProtocol.Reader.Pairs | src/ESPressio_SocketCommandProtocol.hpp:200-208 | reads exactly the announced number of pairs, the first of each key kept in key order, or fails |
| CommandProtocol.DecodeRequest | src/ESPressio_SocketCommandProtocol.hpp:171-212 | the reader's loops accept and return exactly what the grammar says, and refuse trailing bytes and empty paths |
| CommandProtocol.DecodeResponse | src/ESPressio_SocketCommandProtocol.hpp:227-246 | likewise for responses, with a success byte of zero or one and a signed code |
| CommandProtocol.EncodeRequest | src/ESPressio_SocketCommandProtocol.hpp:138-169 | the printer refuses exactly requests with a null value, more than 65535 items or an oversized string, and otherwise writes the grammar's form |
| CommandProtocol.EncodeResponse | src/ESPressio_SocketCommandProtocol.hpp:214-225 | the printer refuses exactly messages longer than a 32-bit length can say |
| CommandProtocol.AppendUnsigned | src/ESPressio_SocketCommandProtocol.hpp:23-42 | appends the big-endian digits of a number |
| CommandProtocol.AppendString | src/ESPressio_SocketCommandProtocol.hpp:48-60 | appends the string with its length, or refuses one whose length does not fit |
| CommandProtocol.AppendCommandValue | src/ESPressio_SocketCommandProtocol.hpp:62-68 | appends a value's string form, and refuses null |
| WireExamples.RequestBytes | src/ESPressio_SocketCommandProtocol.hpp:138-169 | a whole request, byte by byte |
| WireExamples.ResponseBytes | src/ESPressio_SocketCommandProtocol.hpp:214-225 | a whole response with a negative code, byte by byte |
| CommandHost.ReplyIsOneLine | src/ESPressio_SocketCommandSession.hpp:103-112 | a reply ends its line and holds another newline if and only if the message does |
| CommandHost.TrimIsExact | src/ESPressio_SocketCommandSession.hpp:82-87 | trimming takes white space and nothing else off both ends, and as much as there is |
| CommandHost.ReplyOfTwoLines | src/ESPressio_SocketCommandSession.hpp:103-112 | a result whose reply is two lines |
| CommandHost.PolicyDecides | src/ESPressio_SocketCommandSession.hpp:89-101 | the registry hears of exactly the calls that the policy, asked after every answer before, its own refusals among them, did not object to; the observer is told the one answer given, and nothing is written yet |
| CommandHost.AnswerIsDecided | src/ESPressio_SocketCommandSession.hpp:89-101 | every answer given and observed is the policy's refusal or what the registry made of that very call, in order, and nothing else |
| CommandHost.ReplyIsRead | src/ESPressio_SocketCommandSession.hpp:103-112 | an independent reader of status word, decimal code and message gets back success, code and message of every result |
| CommandLineMode.FeedSplits | src/ESPressio_SocketCommandSession.hpp:144-172 | from any partial line, for any bytes, the machine serves the newline-terminated lines without carriage returns and holds the rest within the limit; with disconnection on it stops at the first oversized line |
| CommandLineMode.StopsExactly | src/ESPressio_SocketCommandSession.hpp:148-157 | a feed is cut short exactly if disconnection is on and the bytes complete a line longer than the limit |
| CommandLineMode.FeedLineInTwo | src/ESPressio_SocketCommandSession.hpp:144-172 | two feeds are one feed of both, with disconnection on unless the first already ended at an oversized line, in which case it is all there is |
| CommandLineMode.LineChunksFeedAsOne | src/ESPressio_SocketCommandSession.hpp:144-172 | any chunking is one feed of all bytes; with disconnection on feeding ends with the chunk that completes the first oversized line |
| CommandLineMode.LineModeRefinesSplitting | src/ESPressio_SocketCommandSession.hpp:114-172 | under any chunking the replies are a map over the lines: an error for one beyond the limit, its result otherwise, nothing for an ignored blank, and the line after an oversized one is served normally; with disconnection on the map ends with the first oversized line and nothing is held |
| CommandLineMode.LinesPassThePolicy | src/ESPressio_SocketCommandSession.hpp:129-141 | over any lines, the calls the registry sees are, one by one and in order, those the policy let through |
| CommandLineMode.LinesAreDecided | src/ESPressio_SocketCommandSession.hpp:129-141 | over any lines, every answer the observer is told is the policy's or the registry's own |
| CommandLineReplies.LinesAreAnswered | src/ESPressio_SocketCommandSession.hpp:114-142 | every line but an ignored blank gets one reply: an error for one that is too long, does not parse or names no command, and otherwise the answer that was told for its trimmed text, first word and request number; the session answers true exactly if the writer took all of them |
| CommandLineReplies.LineModeEndToEnd | src/ESPressio_SocketCommandSession.hpp:103-172 | whatever arrives in whatever chunks, a client reads exactly the results its lines should have, in order |
| CommandLineMode.LinesAreCounted | src/ESPressio_SocketCommandSession.hpp:114-142 | the request counter grows by the lines that reach the parser, modulo 2^64, and every line but an ignored blank gets one reply |
| CommandStructuredMode.ChunksServeAsOne | src/ESPressio_SocketCommandSession.hpp:208-239 | chunks of at most limit + 4 bytes serve what one reading of all bytes serves, up to the first bad length |
| CommandStructuredMode.StreamIsServed | src/ESPressio_SocketCommandSession.hpp:208-239 | framed payloads, well formed or not, under any such chunking, are handled one by one in order |
| CommandStructuredMode.PrefixIsLost | src/ESPressio_SocketCommandSession.hpp:233-237 | with a limit of one or two no stream that comes in byte by byte is ever served |
| CommandStructuredMode.BigChunksAreLost | src/ESPressio_SocketCommandSession.hpp:208-209 | chunks longer than a frame of maximum size change nothing and are answered false while nothing is held |
| CommandStructuredMode.StructuredModeServes | src/ESPressio_SocketCommandSession.hpp:208-239 | every legal stream is served under every cutting into chunks up to a size if and only if the limit is at least three and the size at most the limit plus four |
| CommandStructuredMode.FramesPassThePolicy | src/ESPressio_SocketCommandSession.hpp:191-206 | over any payloads, malformed ones included, the requests the registry sees are, one by one and in order, those the policy let through |
| CommandStructuredMode.FramesAreDecided | src/ESPressio_SocketCommandSession.hpp:191-206 | over any payloads, every answer the observer is told is the policy's or the registry's own |
| CommandStructuredReplies.RepliesAreResponses | src/ESPressio_SocketCommandSession.hpp:191-206 | one response per payload: the ID of the request with success, code and message of the answer that the observer was told for it, or ID 0 and an error for a malformed one |
| CommandStructuredReplies.FramesSetTheNumber | src/ESPressio_SocketCommandSession.hpp:197-197 | the session's request number is that of the last request it answered |
| CommandStructuredReplies.FramesAreTaken | src/ESPressio_SocketCommandSession.hpp:199-206 | the answer is true exactly if every response fitted a frame and the writer took every frame |
| CommandStructuredReplies.RepliesAreWritten | src/ESPressio_SocketCommandSession.hpp:191-206 | each payload makes the session write exactly one frame, that of its response, or none if no frame has room for it |
| CommandStructuredReplies.FramesAreRead | src/ESPressio_SocketCommandProtocol.hpp:227-255 | written responses unframe and decode to themselves, in order |
| CommandStructuredReplies.StructuredEndToEnd | src/ESPressio_SocketCommandSession.hpp:181-239 | for any list of payloads within the limit and any chunks of up to limit + 4 bytes, the written bytes decode to one response per payload in order: for a request its own ID and the answer that the observer was told for it, which the policy or the registry gave, or ID 0 and an error for a malformed payload; only responses that no frame has room for are missing |
| CommandStructuredReplies.BadLengthEndsTheStream | src/ESPressio_SocketCommandSession.hpp:213-224 | payloads before a bad length are answered, one error with ID 0 follows, nothing is held, and the answer is true exactly if the earlier feeds were, the session does not disconnect and the writer took the error |
| SocketCommandSession.SocketCommandSession.Initialize | src/ESPressio_SocketCommandSession.hpp:21-35 | starts with empty input from any earlier state; a missing writer or a zero limit is refused and leaves a session that serves nothing |
| SocketCommandSession.SocketCommandSession.Shutdown | src/ESPressio_SocketCommandSession.hpp:37-47 | leaves no partial line, frame or discard mode behind |
| SocketCommandSession.SocketCommandSession.ResetInput | src/ESPressio_SocketCommandSession.hpp:49-54 | forgets partial input of both modes |
| SocketCommandSession.SocketCommandSession.Feed | src/ESPressio_SocketCommandSession.hpp:62-67 | serves the bytes in the configured mode, and nothing before initialisation |
| SocketCommandSession.SocketCommandSession.Execute | src/ESPressio_SocketCommandSession.hpp:89-101 | the registry hears of the call exactly if the policy, asked with all answers so far, does not object, so that it sees exactly the calls that were let through; the observer is told the one answer given and nothing is written |
| SocketCommandSession.SocketCommandSession.HandleLine | src/ESPressio_SocketCommandSession.hpp:114-142 | serves one line as the line-mode function says |
| SocketCommandSession.SocketCommandSession.FeedLine | src/ESPressio_SocketCommandSession.hpp:144-172 | the byte loop is the line machine the splitting theorem is about |
| SocketCommandSession.SocketCommandSession.HandleStructuredFrame | src/ESPressio_SocketCommandSession.hpp:191-206 | answers one payload, malformed or not, with one response |
| SocketCommandSession.SocketCommandSession.FeedStructured | src/ESPressio_SocketCommandSession.hpp:208-239 | the frame loop, whose length prefix may be held apart from the rest, serves the shared reading of the stream, error replies and dropped buffers included |
| SocketCommandSession.FrameStructuredPayload | src/ESPressio_SocketCommandProtocol.hpp:248-255 | the frame the reading side cuts the payload from again |
| StateRuns.RunsStayContained | src/ESPressio_SocketStateSession.hpp:202-242 | in every run registered subscribers are the bound device or nobody, and a session that is not running is bound to nobody |
| StateRuns.BindingIsFixed | src/ESPressio_SocketStateSession.hpp:229-242 | once bound, a session stays bound to the same device until it is shut down |
| StateRuns.ReuseIsClean | src/ESPressio_SocketStateSession.hpp:54-96 | after any run and a shutdown, the next initialisation inherits no subscriber and no identity |
| StateRuns.GrantedIff | src/ESPressio_SocketStateSession.hpp:411-450 | a type counts as granted exactly if an accepted Subscribe of it has no later accepted Unsubscribe, Disconnect or end |
| StateRuns.UpdatesAreGated | src/ESPressio_SocketStateSession.hpp:156-164 | in every run every Update sent, by publication, snapshot or resynchronization, has a type granted at that moment |
| StateRuns.AcknowledgementsAreSound | src/ESPressio_SocketStateSession.hpp:353-397 | in every run an acknowledgement leaves only while the repository holds exactly that origin, type, epoch and revision, and the origin is the bound peer |
| StateRuns.RemoteOnlyAdvances | src/ESPressio_SocketStateSession.hpp:353-383 | no run, with any replays, makes a stored epoch and revision older |
| StateAnswers.AcceptedIsAcknowledged | src/ESPressio_SocketStateSession.hpp:385-459 | in every run each accepted Update, Subscribe and Unsubscribe is acknowledged once, before the next message is accepted or the session ends, and nothing else is acknowledged |
| StateAnswers.UpdatesAreAcknowledged | src/ESPressio_SocketStateSession.hpp:389-397 | an Update is answered true if and only if it is acknowledged; another copy of it is acknowledged again and changes nothing |
| StateAnswers.ExpectedPeerIsToldTwice | src/ESPressio_SocketStateSession.hpp:86-96 | a session that expects its peer announces what it wants when binding and once more |
| StateAnswers.RequestedStatesAreSent | src/ESPressio_SocketStateSession.hpp:427-440 | a resynchronization is answered with exactly the latest entries of the subscribed, published contract types asked for, and turned down exactly for one subscribed type that was never published |
| StateAnswers.AvailabilityIsExact | src/ESPressio_SocketStateSession.hpp:202-242 | in every run of a new session the repository says connected exactly of a bound peer that has not sent an accepted Disconnect since |
| StateAnswers.PeerThatLeftIsServed | src/ESPressio_SocketStateSession.hpp:412-450 | a peer that subscribes again after its Disconnect is served and still recorded as disconnected |
| StateAnswers.LeavingIsNoticed | src/ESPressio_SocketStateSession.hpp:202-227 | after a shutdown each side records the other as gone, the peer exactly if the session was configured to tell it, in which case its subscriptions are dropped |
| StateReceiving.BindReaction | src/ESPressio_SocketStateSession.hpp:229-264 | binding announces exactly the types then wanted and nothing else |
| StateReceiving.ReceiveSubscribe | src/ESPressio_SocketStateSession.hpp:412-418 | a subscription to a contract type adds exactly that type and answers with the current entry and an acknowledgement; one to another type changes nothing |
| StateReceiving.ReceiveUnsubscribe | src/ESPressio_SocketStateSession.hpp:420-425 | takes exactly its type away |
| StateReceiving.ReceiveUpdate | src/ESPressio_SocketStateSession.hpp:389-397 | a wanted update that is not older becomes known; an unwanted one, or one not newer than what is known, leaves the repository alone |
| StateSafety.StepKeepsInvariant | src/ESPressio_SocketStateSession.hpp:156-184 | every publish, subscribe, unsubscribe, delivery, start, shutdown and reconnection keeps: subscriber set and channel together are what is wanted of the publisher's types, and known, coming and latest entries ascend to the latest |
| StateSafety.RunsKeepInvariant | src/ESPressio_SocketStateSession.hpp:54-459 | so it holds in every state two sessions can reach |
| StateTheorems.TwoPeersConverge | src/ESPressio_SocketStateSession.hpp:156-264 | in every reachable state with both bound to each other and empty channels, and whatever the two contracts, each side's subscriber set is what the other wants of the types it has, and for each such type that both have the other's remote entry is the latest published one |
| StateTheorems.ReceivingLowersPotential | src/ESPressio_SocketStateSession.hpp:385-459 | every delivery, answers included, lowers a measure, so sessions cannot keep each other busy |
| StateTheorems.ChannelsDrain | src/ESPressio_SocketStateSession.hpp:385-459 | from every reachable state deliveries alone empty both channels within that measure |
| StateTheorems.DrainingConverges | src/ESPressio_SocketStateSession.hpp:385-459 | and then both directions have converged |
| StateTheorems.WithdrawingIsExact | src/ESPressio_SocketStateSession.hpp:176-184 | withdrawing a descriptor in force keeps two quiet sessions converged if and only if no other applicable descriptor covers its type or the publisher does not have the type |
| StateTheorems.OverlapBreaksConvergence | src/ESPressio_SocketStateSession.hpp:176-184 | a run of two new sessions to a quiet converged state with overlapping descriptors, where withdrawing one drives them apart |
| StateDelivery.FittingMessagesAreTaken | src/ESPressio_SocketStateSession.hpp:385-459 | in every reachable state the next message on its way to a running session that expects no third device is taken, unless it is an Update not asked for, a Subscribe to a type the session does not have or a request for a state never published; no Update ever comes too late |
| StateDelivery.OnlyThePeerIsHeard | src/ESPressio_SocketStateSession.hpp:229-235 | a message of nobody, of a device other than the bound or the expected one, or about somebody else's state is refused and changes nothing |
| StateDelivery.WantedIsAccepted | src/ESPressio_SocketStateSession.hpp:244-264 | a bound session announces exactly the types of which it accepts its peer's updates |
| StateDelivery.WantedOfAnyone | src/ESPressio_SocketStateSession.hpp:244-264 | before it is bound, and if it expects nobody in particular, exactly those it would accept from any device |
| StateDelivery.StateComesBeforeAcknowledgement | src/ESPressio_SocketStateSession.hpp:412-418 | the latest state is sent right before the acknowledgement of the subscription |
| StateDelivery.ResynchronizationRestores | src/ESPressio_SocketStateSession.hpp:427-440 | whatever a session has lost of its peer's states, asking for all of them brings back the latest entry of every type it takes and the peer serves it |
| SocketStateSession.BytesRefineMessages | src/ESPressio_SocketStateSession.hpp:103-117 | messages that were encoded, framed and fed in any chunks the guard lets pass are handled one by one in the order they were sent |
| SocketStateSession.ChunksHandleAsOne | src/ESPressio_SocketStateSession.hpp:103-117 | the payloads of a stream are handled in order whatever its chunks, up to and including those delivered from the first rejected chunk, and the answer tells of the rejection |
| SocketStateSession.MalformedPayloadsAreSkipped | src/ESPressio_SocketStateSession.hpp:103-117 | malformed payloads change nothing, are answered with nothing and make the answer false, and the messages around them are handled as without them |
| SocketStateSession.SocketStateSession.Initialize | src/ESPressio_SocketStateSession.hpp:54-96 | a new session starts with an empty decoder of the configured limit, bound to the expected peer if there is one, and announces its subscriptions; a missing handler, a limit below the control messages or a failed registration leaves it uninitialised, and an initialised one stays as it is, whatever it is given |
| SocketStateSession.SocketStateSession.ShutdownLocked | src/ESPressio_SocketStateSession.hpp:202-227 | tells a bound peer if asked to, and leaves no peer, subscriber or buffered byte |
| SocketStateSession.SocketStateSession.BindPeer | src/ESPressio_SocketStateSession.hpp:229-242 | the first acceptable device is bound and told what is wanted, the same one is accepted again, any other refused |
| SocketStateSession.SocketStateSession.SendCurrentSubscriptions | src/ESPressio_SocketStateSession.hpp:254-264 | one Subscribe for each applicable descriptor, in order |
| SocketStateSession.SocketStateSession.SendSnapshotByType | src/ESPressio_SocketStateSession.hpp:338-351 | sends the latest entry exactly if the type is in the contract and was published |
| SocketStateSession.SocketStateSession.RequestResynchronization | src/ESPressio_SocketStateSession.hpp:144-148 | asks once, and only while initialised |
| SocketStateSession.SocketStateSession.OnTypedStatePublished | src/ESPressio_SocketStateSession.hpp:156-164 | one Update for a publication of a type the bound peer subscribed to, otherwise nothing |
| SocketStateSession.SocketStateSession.OnStateSubscribed | src/ESPressio_SocketStateSession.hpp:166-174 | one Subscribe exactly if the descriptor applies to the peer, whether the registry has stored it yet or not |
| SocketStateSession.SocketStateSession.OnStateUnsubscribed | src/ESPressio_SocketStateSession.hpp:176-184 | one Unsubscribe exactly if the descriptor applies, whatever else covers the type and whether the registry still holds it or not |
| SocketStateSession.NotificationsAreTimeless | src/ESPressio_SocketStateSession.hpp:166-184 | what a registry change makes a session send does not depend on being told before or after the change |
| SocketStateSession.SocketStateSession.HandleUpdate | src/ESPressio_SocketStateSession.hpp:353-397 | stores a newer entry of a wanted contract type and acknowledges it, acknowledges an exact duplicate without storing, refuses all else |
| SocketStateSession.SocketStateSession.HandleProtocolMessage | src/ESPressio_SocketStateSession.hpp:385-459 | the in-place dispatch is the message function all run theorems are about |
| SocketStateSession.SocketStateSession.Feed | src/ESPressio_SocketStateSession.hpp:103-117 | handles exactly the payloads the decoder delivers, in order, and answers whether all were accepted; leaves the decoder ready for the next feed |
| ClockExchange.StepKeepsSound | src/timing/ESPressio_SocketClockSynchronizationProtocol.hpp:99-184 | every atomic operation of any requester, canceller, broadcaster or the receiver keeps: what is pending is unspent, what was matched is spent once |
| ClockExchange.RunKeepsSound | src/timing/ESPressio_SocketClockSynchronizationProtocol.hpp:99-184 | so every interleaving does while at most 2^32 numbers are handed out |
| ClockExchange.OldResponseIsTakenAgain | src/timing/ESPressio_SocketClockSynchronizationProtocol.hpp:103-113 | a run with one number more in which a repeated old response yields a second sample for its number |
| ClockExchange.AtMostOnceExactly | src/timing/ESPressio_SocketClockSynchronizationProtocol.hpp:149-184 | no number leads to two samples in any run with up to n allocations, whatever the network delivers, if and only if n is at most 2^32 |
| ClockOffset.StepKeepsHonest | src/timing/ESPressio_SocketClockSynchronizationProtocol.hpp:103-147 | with an honest reference, every request, served request, response and sample in any place stays in the order of true time |
| ClockOffset.OffsetIsBracketed | src/timing/ESPressio_SocketClockSynchronizationProtocol.hpp:103-184 | every accepted sample echoes the transmit time of the request with its number, and the true offset before and after the exchange lies between T3 - T4 and T2 - T1 if the clock was not set back meanwhile, in every interleaving and under loss, delay, repetition and reordering |
| ClockOffset.SettingBackBreaksTheBracket | src/timing/ESPressio_SocketClockSynchronizationProtocol.hpp:174-183 | for every two settings of which the second is the smaller, an honest run in which the clock goes from one to the other during the exchange and no offset is possible |
| ClockOffset.BracketIsExact | src/timing/ESPressio_SocketClockSynchronizationProtocol.hpp:103-184 | all honest samples whose exchange began with one setting and ended with another bracket the true offset if and only if the second is not smaller |
| ClockPending.OnlyOvertakingLosesRequests | src/timing/ESPressio_SocketClockSynchronizationProtocol.hpp:167-172 | in every run with up to 2^32 allocations the receiver clears a request other than the one it answered if and only if one with a non-zero number is stored between its load and its clear, and neither cancelled nor replaced by number zero before that clear |
| ClockPending.OvertakenRequestIsLost | src/timing/ESPressio_SocketClockSynchronizationProtocol.hpp:167-172 | a run in which a fresh request, neither answered nor cancelled, is wiped out |
| ClockProtocol.DecodedClockMessageIff | src/timing/ESPressio_SocketClockSynchronizationProtocol.hpp:24-51 | a receiver accepts exactly the encodings of messages of its kind, any reserved field included |
| WireExamples.ClockRequestBytes | src/timing/ESPressio_SocketClockSynchronizationProtocol.hpp:24-40 | a whole clock request, byte by byte |
| ClockProtocol.RequestIsThreeSteps | src/timing/ESPressio_SocketClockSynchronizationProtocol.hpp:103-113 | an undisturbed call to build a request is allocation, time stamp and store of the interleaved model |
| ClockProtocol.ResponseIsFourSteps | src/timing/ESPressio_SocketClockSynchronizationProtocol.hpp:149-184 | an undisturbed call to process a response is time stamp, load, clear and submission |
| ClockProtocol.ServingIsTwoSteps | src/timing/ESPressio_SocketClockSynchronizationProtocol.hpp:115-147 | the reference answers with the request's number and T1, its clock when the request came in and its clock when it answers |
| ClockProtocol.OthersAreOneStep | src/timing/ESPressio_SocketClockSynchronizationProtocol.hpp:99-101 | a cancellation empties the slot and leaves the counter alone, and a broadcast the other way round |
| ClockProtocol.SocketClockSynchronizationProtocol.BuildRequest | src/timing/ESPressio_SocketClockSynchronizationProtocol.hpp:103-113 | a client gets the next number, which becomes the pending one, wrapping after 2^32 - 1; others get nothing |
| ClockProtocol.SocketClockSynchronizationProtocol.ProcessRequest | src/timing/ESPressio_SocketClockSynchronizationProtocol.hpp:115-147 | a reference answers exactly well-formed requests, with their own number and T1 |
| ClockProtocol.SocketClockSynchronizationProtocol.ProcessResponse | src/timing/ESPressio_SocketClockSynchronizationProtocol.hpp:149-184 | submits a sample exactly for a well-formed response to the pending request, which is pending no more; anything else changes nothing |
| ClockProtocol.SocketClockSynchronizationProtocol.CancelPendingRequest | src/timing/ESPressio_SocketClockSynchronizationProtocol.hpp:99-101 | no response is accepted until the next request |
| ClockProtocol.SocketClockSynchronizationProtocol.BuildAuthoritativeBroadcast | src/timing/ESPressio_SocketClockSynchronizationProtocol.hpp:186-195 | a reference's broadcast takes a number from the same counter and leaves the pending request alone |
| ClockProtocol.SocketClockSynchronizationProtocol.ProcessAuthoritativeBroadcast | src/timing/ESPressio_SocketClockSynchronizationProtocol.hpp:197-230 | a client submits a zero-delay sample exactly for a well-formed broadcast and leaves the pending request alone |
| SocketWorker.StepKeepsSafe | src/ESPressio_SocketWorker.hpp:39-118 | for a worker that does not stop itself, each atomic operation of controller and tasks keeps at most one unfinished task, which the handle names from the end of the start on |
| SocketWorker.WorkerIsSafe | src/ESPressio_SocketWorker.hpp:47-118 | for a worker that does not stop itself, in every interleaving at most one task has not finished, and none once a stop has returned, or while a start writes the configuration |
| SocketWorker.StepKeepsSingle | src/ESPressio_SocketWorker.hpp:39-118 | with tasks that stop themselves, each atomic operation except a start while the old task is unfinished keeps at most one unfinished task |
| SocketWorker.SelfStopsAreSafe | src/ESPressio_SocketWorker.hpp:39-118 | so every such run does, and none is unfinished once the handle is clear after a stop, or while a start writes the configuration |
| SocketWorker.RestartIsExact | src/ESPressio_SocketWorker.hpp:67-97 | starting a stopped worker keeps one task at a time through every continuation if and only if the task its handle names has left |
| SocketWorker.StopReturns | src/ESPressio_SocketWorker.hpp:100-118 | unless its handle is stuck, a stop returns, however scheduled, at the first poll after the worker task has had its last operations, at most three, or four if it is stopping itself, and one more for each time it stops itself during the wait |
| SocketWorker.WaitIsExact | src/ESPressio_SocketWorker.hpp:100-114 | a waiting stop waits through every continuation if and only if its handle names a task that has left, or one that waits for that handle itself |
| SocketWorker.HangIsExact | src/ESPressio_SocketWorker.hpp:47-98 | a handle gets stuck in a run without early restarts if and only if it is stored after its task has left |
| SocketWorker.FailedStartLeavesNothing | src/ESPressio_SocketWorker.hpp:67-93 | a failed start leaves no task and no handle, not even a stale one, so that a stop returns at once |
| SocketWorker.SelfStopRunsTwoTasks | src/ESPressio_SocketWorker.hpp:67-118 | a self-stop followed by a restart lets two tasks iterate |
| SocketWorker.SelfStopHangsTheController | src/ESPressio_SocketWorker.hpp:95-118 | a run with a self-stop before the creator stores the handle, after which a stop waits through every continuation |
| SocketWorker.SelfStopHangsTheTask | src/ESPressio_SocketWorker.hpp:95-118 | a run in which a restarted task stops itself while an old handle is stored, and waits for its own end for ever |
| SlotTable.AcceptTakesAFreeSlot | src/ESPressio_TCPCommandServer.hpp:152-193 | a newcomer gets an identifier and an empty session in a slot without a connected client, or is turned away exactly when there is none; if its session does not start the slot is free again; one that is not served is disconnected; served clients keep all they have |
| SlotTable.DrainKeepsBytes | src/ESPressio_TCPCommandServer.hpp:114-123 | what a session was fed is what was read, in order, and what was not read is still waiting |
| SlotTable.AcceptKeepsSafe | src/ESPressio_TCPStateServer.hpp:165-202 | accepting keeps slots below the maximum, identifiers distinct and sessions fed from their own connections |
| SlotTable.ServeKeepsSafe | src/ESPressio_TCPStateServer.hpp:119-137 | so does serving a slot, whether it is fed, found disconnected or reset on a rejection |
| SlotRuns.SlotTableIsSafe | src/ESPressio_TCPStateServer.hpp:54-202 | in every run with fewer than 2^64 accepts, restarts with other configurations included, and whatever each session answers, active slots lie below the maximum with distinct non-zero identifiers, no two hold one connection, and each session was fed exactly the bytes read from its own connection since it was accepted |
| SlotRuns.SlotsAreIndependent | src/ESPressio_TCPCommandServer.hpp:106-124 | a pass over the table does to each slot what serving it alone would do |
| SlotRuns.DrainIsExact | src/ESPressio_TCPCommandServer.hpp:114-123 | reading is cut short by a reset exactly if the session rejects one of the pieces up to the first failed read |
| SlotRuns.DrainReadsOn | src/ESPressio_TCPCommandServer.hpp:114-123 | what comes after a failed read is read in the next pass |
| SlotRuns.ServedClientsStay | src/ESPressio_TCPCommandServer.hpp:101-125 | a pass takes slot, session and identifier from a connected client if and only if its session rejects a piece it is fed and the server resets on rejections; otherwise the session is fed everything that can be read and nothing else changes |
| SlotClients.NoClientIsForgotten | src/ESPressio_TCPCommandServer.hpp:101-193 | in every run a connection is open only while it waits to be accepted or is the client of an active slot |
| SlotClients.OneRoundLeavesNoneGone | src/ESPressio_TCPCommandServer.hpp:101-125 | and after each round of the worker no active slot is held by a client that has gone |
| SlotBound.IdentifiersRepeat | src/ESPressio_TCPCommandServer.hpp:162-163 | a run in which one client stays, 2^64 - 1 others are accepted, and the last one shares its identifier |
| SlotBound.IdsApartExactly | src/ESPressio_TCPCommandServer.hpp:157-190 | with two slots or more, active slots have different identifiers in every run with up to n accepts if and only if n is below 2^64 |
| SocketServer.TCPServer.Initialize | src/ESPressio_TCPStateServer.hpp:54-85 | refuses a zero port, a client count outside the table or a zero session limit, and carries slots and identifiers over from an earlier start |
| SocketServer.TCPServer.ResetClient | src/ESPressio_TCPCommandServer.hpp:145-150 | ends the session, stops the connection and frees the slot, and touches no other |
| SocketServer.TCPServer.AcceptClientLocked | src/ESPressio_TCPCommandServer.hpp:152-193 | the in-place search and set-up is the accept the run theorems are about, a failed session initialisation included |
| SocketServer.TCPServer.OnWorkerIteration | src/ESPressio_TCPStateServer.hpp:114-138 | one iteration is one accept followed by serving every slot below the maximum |
| SocketServer.TCPServer.ServeClient | src/ESPressio_TCPCommandServer.hpp:106-124 | the read loop feeds the session until nothing is left, a read fails or a rejection resets the slot |
| SocketServer.TCPServer.Shutdown | src/ESPressio_TCPCommandServer.hpp:64-75 | resets every slot of the table |

## Left out

- Platform I/O: WiFi clients and servers, UDP sockets, `millis()` pacing, multicast and SNTP callbacks. A connection is a connected flag and the pieces that reads return; clock readings are parameters.
- The insides of the State, Command, Security, Timing, Observable and System libraries, which appear through what they promise: publishing raises the revision and notifies in one step, a snapshot is the latest entry, the remote repository takes exactly newer entries and has room for every device, the subscription registry notifies only when it changes, the State codec gives back what it encoded, an execution handle is never zero. The registry, writer and security layer are functions of everything they have been given, the policy of every answer so far, the tokenizer of the line.
- Sending is reliable and encoded State messages fit both limits: a send handler that fails, and a session whose handler answers by calling into the same session synchronously, are not modelled.
- SocketStateSession.SocketStateSession.Feed: handles the delivered payloads after the push rather than inside the callbacks, because no handler touches the decoder; calling `Shutdown` or `Feed` from inside a session callback is not modelled.
- StateTheorems.TwoPeersConverge: assumes that an application withdraws a descriptor in force for a type the other side has only while no other one in force covers that type; `WithdrawingIsExact` shows that this is needed.
- A rejected message is skipped and decoding continues. That the TCP adapters disconnect on it is in the slot table, where a connection ends, not in the two-session model.
- SocketFrames.SocketEventFrameDecoder.Push: does not model a callback that pushes again, which that decoder is not written for; the same holds for the secure and Command loops.
- CommandStructuredMode.ChunksServeAsOne: says nothing about bytes after the first bad length, which are dropped with the rest of their chunk (`BadLengthEndsTheStream`), so that what follows depends on the chunking; likewise the framed decoders after a rejected chunk.
- Null data pointers: every byte string and every payload is there.
- Wrap-around of `size_t` in the length guards, which needs a buffer as large as memory, and of 64-bit nanosecond time stamps in the clock exchange.
- Command metadata other than the request counter, `SetMetadata`, observers, `GetConnectedClientCount` and the setters of policies and observers on a running server: forwarding only.
- ClockOffset.OffsetIsBracketed: assumes clocks of equal rate; the local clock may be set at any time, and `BracketIsExact` says when that matters.
- SocketWorker.StepKeepsSingle: models the worker as a state machine over single operations rather than as a class, since methods that run uninterrupted could not show the interleavings; names, stack sizes and priorities are not in it.
- SlotTable.DrainKeepsBytes: takes a session as its identifier, the chunks it was fed and any answer to each; what a State or Command session makes of them is proved for those sessions themselves.
- Two controllers of one worker, and weak memory orders: atomics are taken one at a time in some order.
- Replies that a server session writes: only what is read from connections is modelled in the slot table.
- Event bridges and observer interfaces, which only forward; `SocketSecurityDatagram`, which protects or opens one datagram; and `WriteAll`, which repeats a write until all is written.
