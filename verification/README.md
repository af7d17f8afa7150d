# Pajamax in Dafny: the HTTP/2 and HPACK core

Pajamax is a gRPC server that writes the part of HTTP/2 (RFC 7540) and HPACK (RFC 7541) it needs by
hand, with shortcuts that rest on invariants nobody checks at run time. This project models that core
and proves what the shortcuts rely on.

Check it with `dafny verify dfyconfig.toml`.

## What is proved

**Routing by cache.** The header decoder keeps no text: its table and two maps hold indexes into a
cache of routes that its caller grows. `RouteCache.CacheIsTransparent` relates both, over every run
of header blocks, to a reference decoder that keeps text and evicts by section 4.4 of RFC 7541,
followed by a linear search of the services. It also shows why never evicting is sound
(`EvictSim`, `InsertSim`, `LookupAgrees`), and `TableDrift.DriftExact` that no weaker relation between
the two tables would do. The route is that of the first service with a method for the path
(`RouteCache.FreshPathIsRouted`). `RouteLimits` and `EncodingLimits` have the limits of each shortcut.
`Rfc7541Examples.ThreeRequests` holds the reference decoder to examples of the standard.

**The read loop.** `Connection.Connection` has the fields of the loop and its parser, and a method for
each arm. `Feed` and `HandleConnection` prove that octets cut into reads in any way have the effect of
the frames that repeated parsing finds, with the same dispatched calls and control replies, while the
zero-copy path for DATA appends to a stream piece by piece. `Ledger` is the same connection as the
peer sees it: a stage for each stream it named, with all the octets it sent there. The server agrees
with the ledger after every run (`Runs.RunAgrees`), and laws that name only frames are read off it: what
becomes of a stream (`Fates.StreamFates`), its message (`Runs.MessageIsReassembled`, with the contents of
payloads as `Http2.PaddingExact` has them), the control replies (`Replies.RepliesExact`), and which frames
stop the connection (`Stops.StopsExact`). `Refusals.CallsAreReferenced` gives the routes of calls by the
blocks in the frames. Every turn of the loop accounts for all octets of DATA so far
(`Connection.Connection.TakeTurn`), and `Credit.ClientGetsCredit` follows the window updates to the client.

**Writing.** The writer is proved against frames and, through the reference decoder, against what a
client reads: `Writer.ClientReadsJobs` holds for every order of replies, failures, window updates and
control replies, with an encoder that only remembers ranks of entries.

**Huffman.** The packer and the automaton are inverse to each other in both directions
(`HuffmanDecode.DecodeIffEncode`) over any prefix-free code of the right shape; `HuffmanTable` shows
that every complete canonical code, the repository's among them, has it.

**Dispatch.** `Dispatch.StreamsEndOnce` covers every interleaving of the read loop, handlers, shards
and the writer, and `Answers.AnswerIsRead` what a client reads of an answer. `DictStore.ShardsAreOneMap`
covers every interleaving of the example's shards, and `DictHistory.RepliesAreRight` tells each reply by
the requests before it.

## Where the code falls short

These are results; the model keeps the code as it is. Each has an input on which the code fails and the
exact condition under which it does not.

- Refused HEADERS are not decoded (pajamax/src/connection.rs:482-487). A refused block that enters the
  table puts the server's indexes off, and a later request gets the method of another path
  (`Refusals.RefusedBlockMisroutes`). Every request that may come next is served rightly if and only if the
  peer's table after the refused blocks is still the recent part of the server's, each entry a path if and
  only if it is one, with the route of that path if a service has it (`Refusals.HarmlessExact`,
  `TableDrift.DriftExact`, for services that route two short paths apart). So blocks that only evict are
  harmless (`Refusals.EvictingIsHarmless`). If the tables are related whenever a block is served, every call
  has the route its peer meant (`Refusals.CallsAreReferenced`).
- Decoder and cache part when a block takes more new cache indexes than its last path accounts for
  (pajamax/src/hpack_decoder.rs:217-219): `RouteLimits.LockstepExact` counts them, and
  `RouteLimits.TwoPathsBreakLockstep` is an input. The routing claims are for blocks with one path.
- A size update is read with a prefix of seven bits instead of five
  (pajamax/src/hpack_decoder.rs:274), which is right if and only if its value is below 31
  (`RouteCache.SizeUpdateExact`, `RouteLimits.LongUpdateIsMisread`).
- A literal that takes its name from a table entry with an unrecognised `grpc-encoding` is not seen as
  an encoding (pajamax/src/hpack_decoder.rs:355-361; `RouteLimits.EncodingIsMissed`). For each field
  `RouteLimits.EncodingMatchExact` and `RouteLimits.EncodingExact` say when it is right. For requests, a peer
  can mark those entries of its table: the encoding of a request is right if and only if the last
  recognised one did not come by way of a marked entry, or was in force before
  (`EncodingLimits.RequestEncodingExact`, `EncodingLimits.EncodingsExact`). Other claims about encodings
  carry the parameter `strict`, which excludes fields that are missed so; claims about routes do not need it.
- Indexed fields 4 and 5 of the static table (`/` and `/index.html`) are not seen as paths
  (pajamax/src/hpack_decoder.rs:185; `RouteLimits.IndexedPathExact`, `RouteLimits.StaticPathIsMissed`).
  `RouteCache.Tame` excludes these two octets, not the paths.
- DATA without padding skips the checks of process_frame (pajamax/src/connection.rs:348-376):
  `Frames.DirectRefinesBuffered` says exactly when that makes no difference, and `Frames.DataOnZero` and
  `Frames.DataBeforeContinuation` are reachable inputs where it does. So DATA on stream 0 is credited
  twice to the connection (`Credit.CreditIsConserved`, `Credit.ZeroCountsTwice`).
- Padding without content is refused (pajamax/src/http2.rs:132-134), which the standard allows:
  `Http2.PaddingExact` says which payloads are taken, and `Http2.OnlyPaddingIsRefused` has the others.
- Some input panics; the model has this as the result `Panic`. An integer that is cut off at the end of a
  block (pajamax/src/hpack_decoder.rs:468) panics exactly as `HpackInt.IntPanicsExact` says, for instance
  the one octet 0xff (`RouteLimits.CutIndexPanics`). So does the name of an entry that is not there
  (pajamax/src/hpack_decoder.rs:354-355; `RouteLimits.MissingNamePanics`). `RouteLimits.RequestPanicsExact` says
  which blocks panic. A PING that is not eight octets panics when it is to be answered
  (pajamax/src/http2.rs:367; `Frames.EmptyPingPanics`), and `Frames.FramePanicsExact` shows that no other frame does.

## Layout

| file | models |
|---|---|
| Wrappers, Arith, Bits | results, facts of arithmetic, octets and bits |
| Huffman, HuffmanDecode, HuffmanTable | pajamax/src/huffman |
| HpackInt, HpackReference, HpackFields, Rfc7541 | RFC 7541: integers, a reference decoder, fields on the wire, its tables |
| HpackDecoder, RouteCache | pajamax/src/hpack_decoder.rs, and resolve_route |
| RouteLimits, EncodingLimits, TableDrift | where these part from the standard, and from the peer's table |
| HpackEncoder, Http2, Writer | pajamax/src/hpack_encoder.rs, http2.rs, response_end.rs |
| Rfc7541Examples | examples of appendix C of RFC 7541 |
| Frames, Connection | pajamax/src/connection.rs: a frame as a step, and the loop as a class |
| Ledger, Runs, Refusals, Replies, Stops, Fates | whole runs of a connection |
| Accounts, Credit | flow control, from DATA frames to what a client reads |
| Dispatch, Answers | pajamax/src/dispatch.rs, and response_end.rs as its senders see it |
| DictStore, DictHistory | examples/src/dict_store.rs |

Where the source changes state in a loop or in place, the model has a method or a class that does
so, proved equal to a function on values (`Abs`, `View`, `...Result`, `...Step`); the theorems are about
these functions. `&mut Vec<u8>` parameters that are only appended to or overwritten are passed in and
out as sequences.

## Model

| member | source | states |
|---|---|---|
| Huffman.Encode | pajamax/src/huffman/mod.rs:39-62 | the packer with its 40-bit window writes exactly the code words of the string, filled up to an octet with ones, behind what was written before |
| Huffman.AppendBits | pajamax/src/huffman/mod.rs:46-47 | or-ing a code word into the window appends its bits to the pending ones, although the high bits are never masked |
| Huffman.PopOctet | pajamax/src/huffman/mod.rs:49-54 | pushing the top octet and shifting moves eight pending bits to the output |
| Huffman.LastOctet | pajamax/src/huffman/mod.rs:57-61 | the closing step pads the pending bits with ones, and only when there are any |
| Huffman.EncodedIsNumber | pajamax/src/huffman/mod.rs:39-62 | read as one number, most significant octet first, the Huffman form is that of its code words in their widths, with fewer than eight ones behind |
| HuffmanDecode.DecodeIffEncode | pajamax/src/huffman/mod.rs:18-62 | decoding accepts x as s if and only if x is the encoding of s: round trip and canonicity in one |
| HuffmanDecode.WalkSound | pajamax/src/huffman/mod.rs:73-92 | what the automaton has output and its state together spell the bits read so far |
| HuffmanDecode.WalkCodes | pajamax/src/huffman/mod.rs:73-92 | from the root, the code words of a string lead back to the root and output the string |
| HuffmanDecode.AtMostOne | pajamax/src/huffman/mod.rs:73-92 | four bits complete at most one symbol, as a table row has room for one |
| HuffmanDecode.NibbleStep | pajamax/src/huffman/mod.rs:21-28 | two table steps per octet carry the automaton over the octet's bits |
| HuffmanDecode.Decoder.Decode4 | pajamax/src/huffman/mod.rs:73-92 | one step of the automaton by its row: next state, symbol, error, and whether padding may end here |
| HuffmanDecode.Decode | pajamax/src/huffman/mod.rs:18-36 | the loop over nibbles returns the decoding of the octets, or the error |
| HuffmanTable.CanonicalIsValid | pajamax/src/huffman/table.rs:4-262 | every complete canonical code of 5 to 30 bits with end-of-string last is prefix-free, with end-of-string all ones |
| HuffmanTable.TableIsValid | pajamax/src/huffman/table.rs:4-262 | the code of the repository's table, given by its lengths, is one of these |
| Rfc7541.StandardIsValid | pajamax/src/huffman/table.rs:4-262 | the assumptions the other modules make of the tables hold of the standard's tables |
| HpackInt.EncodeInt | pajamax/src/hpack_encoder.rs:110-139 | the loop writes the encoding of section 5.1 of RFC 7541 |
| Rfc7541Examples.Integers | pajamax/src/hpack_encoder.rs:110-139 | the three examples of appendix C.1 of RFC 7541 |
| HpackInt.DecodeInt | pajamax/src/hpack_decoder.rs:428-485 | the loop returns what section 5.1 reads, cut off after five octets, with the panic on a truncated integer |
| HpackInt.DecodeInvertsEncode | pajamax/src/hpack_decoder.rs:428-485 | decoding inverts encoding, whatever follows, exactly below 2^p - 1 + 2^28, and rejects every larger value |
| HpackInt.IntPanicsExact | pajamax/src/hpack_decoder.rs:428-485 | decoding indexes past the end of its octets if and only if there are fewer than five, the prefix is full, and every octet behind it continues |
| HpackDecoder.DecodeString | pajamax/src/hpack_decoder.rs:403-426 | a string literal is read with its Huffman flag, length and octets, or refused |
| HpackDecoder.EqStrIffText | pajamax/src/hpack_decoder.rs:293-306 | comparing by re-encoding decides whether the decoded text is the name, for names whose encoding is not longer |
| HpackDecoder.EqualsStr | pajamax/src/hpack_decoder.rs:294-306 | the comparison as the code makes it |
| HpackDecoder.StrToEncoding | pajamax/src/hpack_decoder.rs:308-328 | gzip, deflate and zstd, plain or in Huffman form, each stand for their own encoding, and no other text for any |
| HpackDecoder.EncodingIsNamed | pajamax/src/hpack_decoder.rs:308-328 | so it is in the specification |
| HpackDecoder.DecodeLiteralHeader | pajamax/src/hpack_decoder.rs:365-401 | a literal is read, its name classified, and its length returned |
| HpackDecoder.MatchLiteral | pajamax/src/hpack_decoder.rs:343-363 | what a name stands for, by static or dynamic index or by text |
| HpackDecoder.Decoder.PushDynamicEntry | pajamax/src/hpack_decoder.rs:167-169 | the table grows by one entry and keeps the others |
| HpackDecoder.Decoder.OnIndexed | pajamax/src/hpack_decoder.rs:182-201 | an indexed field selects the entry 61 + len - index |
| HpackDecoder.Decoder.TakeIndexing | pajamax/src/hpack_decoder.rs:205-230 | a literal with indexing: a path takes the next cache index, and every literal a table entry |
| HpackDecoder.Decoder.TakePlain | pajamax/src/hpack_decoder.rs:237-270 | a literal without indexing: a known path is cached, a new one takes the next cache index |
| HpackDecoder.Decoder.FindPathAndEncoding | pajamax/src/hpack_decoder.rs:171-285 | the loop over a block does to the decoder, and returns, what its fields do one after another |
| RouteCache.ResolveRoute | pajamax/src/connection.rs:668-701 | a path not cached gets the first service with a method for it, which enters the cache, and an error if and only if there is none; a cached one its entry; the decoder is left as after the block |
| RouteCache.RouteIsFirst | pajamax/src/connection.rs:682-687 | the search finds a service and method if and only if it is the first with a method for the path, and nothing if and only if there is none |
| RouteCache.FreshPathIsRouted | pajamax/src/connection.rs:676-698 | a block with a fresh path gets that route, and it enters the cache; or the error, exactly when no service has the path |
| RouteCache.SizeUpdateExact | pajamax/src/hpack_decoder.rs:273-276 | a size update is taken for what it is if and only if its value is below 31 |
| RouteCache.EvictSim | pajamax/src/hpack_decoder.rs:167-169 | an evicting table of section 4.4 of RFC 7541 stays the most recent part of the grow-only one |
| RouteCache.InsertSim | pajamax/src/hpack_decoder.rs:185-198 | and so it does when both insert an entry |
| RouteCache.LookupAgrees | pajamax/src/hpack_decoder.rs:185-198 | every dynamic index that is valid under the standard selects the entry of that very header |
| RouteCache.FieldAgrees | pajamax/src/hpack_decoder.rs:96-121 | a field that the standard reads is read as the same field, of the same length, unless it is a long size update |
| RouteCache.FieldSim | pajamax/src/hpack_decoder.rs:181-278 | one field keeps decoder and cache in step with a decoder that keeps header text |
| RouteCache.ResolveAgrees | pajamax/src/connection.rs:668-701 | one block: the route is the first match for the path the standard reads, and decoder and cache are in lockstep again |
| RouteCache.CacheIsTransparent | pajamax/src/connection.rs:668-701 | every run of blocks that the standard reads, each with one routed path: the route of each is the first service with a method for the path that the standard reads in it, and encodings are those read, under `strict` |
| RouteLimits.LockstepExact | pajamax/src/connection.rs:676-698 | after a routed request, decoder and cache are in lockstep if and only if its block took one new index and its last path was the one, or took none and its last path was cached |
| RouteLimits.TwoPathsBreakLockstep | pajamax/src/hpack_decoder.rs:217-219 | with two new paths in a block, the counts part from any lockstep state, and a later reference panics |
| RouteLimits.IndexedPathExact | pajamax/src/hpack_decoder.rs:185-200 | an indexed field is seen as the path it is if and only if it is not 4 or 5 |
| RouteLimits.StaticPathIsMissed | pajamax/src/hpack_decoder.rs:185-200 | of the block 0x84 the standard reads a path, and the server reports that there is none |
| RouteLimits.EncodingMatchExact | pajamax/src/hpack_decoder.rs:353-362 | a literal is seen as the encoding it is if and only if its name is not that of an entry with an unknown encoding |
| RouteLimits.EncodingExact | pajamax/src/hpack_decoder.rs:221-227 | the encoding of a request after a literal is the right one if and only if the literal is no missed encoding, or was in force before |
| RouteLimits.EncodingIsMissed | pajamax/src/hpack_decoder.rs:355-361 | after a request with encoding br, one for gzip under the same name by index: the standard reads gzip, the server none |
| RouteLimits.LongUpdateIsMisread | pajamax/src/hpack_decoder.rs:273-276 | after an update of 32 the standard reads a path where the server reports an error |
| RouteLimits.RequestPanicsExact | pajamax/src/hpack_decoder.rs:171-285 | a request panics if and only if, field after field, its block is cut off inside an integer or names an entry that is not there, or its path has an index past the cache |
| RouteLimits.CutIndexPanics | pajamax/src/hpack_decoder.rs:468 | from every state, the block 0xff panics |
| RouteLimits.MissingNamePanics | pajamax/src/hpack_decoder.rs:354-355 | from every state, a literal under the name behind the last entry panics, where the standard reports an error |
| EncodingLimits.RequestEncodingExact | pajamax/src/hpack_decoder.rs:171-285 | the encoding of a request is the one meant if and only if the last recognised one did not come by way of an entry whose value or name was not recognised, or was in force before; routes need not be strict |
| EncodingLimits.EncodingsExact | pajamax/src/hpack_decoder.rs:221-227 | so it is for every request of every run, by marks that the peer keeps beside its table |
| EncodingLimits.EncodingIsLast | pajamax/src/hpack_decoder.rs:221-227 | the encoding meant is the last recognised one among the headers, and none if there is none |
| TableDrift.DriftExact | pajamax/src/hpack_decoder.rs:185-198 | all good requests from a peer are served rightly if and only if its table is the recent part of the server's: paths where it has paths, with their routes, and encodings under `strict` |
| HpackFields.FieldReadsBack | pajamax/src/hpack_encoder.rs:94-107 | the octets of a field read back, under the standard, as that field, whatever follows |
| HpackFields.BlockReadsBack | pajamax/src/hpack_encoder.rs:72-107 | a whole block reads back as the effect of its fields |
| HpackEncoder.Encoder.EncodeGrpcStatusZero | pajamax/src/hpack_encoder.rs:21-29 | a new entry the first time, then its index by rank |
| HpackEncoder.Encoder.EncodeContentType | pajamax/src/hpack_encoder.rs:31-39 | a new entry the first time, then its index by rank |
| HpackEncoder.Encoder.EncodeGrpcStatusNonzero | pajamax/src/hpack_encoder.rs:41-62 | the code as decimal text, under a name by index if there is one |
| HpackEncoder.DecimalIsNumber | pajamax/src/hpack_encoder.rs:41-52 | the digits written for a code stand for it, without leading zeros |
| HpackEncoder.WrittenTexts | pajamax/src/hpack_encoder.rs:31-39 | the constants of the content type and the encodings accepted are these texts |
| HpackEncoder.StatusTexts | pajamax/src/hpack_encoder.rs:21-29 | and those of the status |
| HpackEncoder.Encoder.EncodeAndIndexHeader | pajamax/src/hpack_encoder.rs:72-78 | writes a literal with indexing and counts the entry |
| HpackEncoder.TableStaysSmall | pajamax/src/hpack_encoder.rs:72-92 | the peer's table never holds more than two entries and 104 octets |
| HpackEncoder.StatusZeroIsRead | pajamax/src/hpack_encoder.rs:21-29 | the peer reads grpc-status 0 from either form, and its table mirrors the ranks |
| HpackEncoder.ContentTypeIsRead | pajamax/src/hpack_encoder.rs:31-39 | the peer reads the content type from either form, and its table mirrors the ranks |
| HpackEncoder.StatusIsRead | pajamax/src/hpack_encoder.rs:41-62 | the peer reads the status code that was meant |
| Http2.HeadReadsBack | pajamax/src/http2.rs:76-84 | any frame header built reads back with its length cut to 24 bits and its stream to 31 |
| Http2.FrameReadsBack | pajamax/src/http2.rs:56-84 | a frame within the limits reads back as itself, whatever follows |
| Http2.FramesReadBack | pajamax/src/http2.rs:56-84 | frames in a row read back one by one, and the rest is left |
| Http2.BuildHead | pajamax/src/http2.rs:76-84 | a header overwrites the nine octets reserved for it and nothing else |
| Http2.HeadExact | pajamax/src/http2.rs:56-72 | length, kind, flags and stream are these of the nine octets, most significant first |
| Http2.FlagBits | pajamax/src/http2.rs:215-243 | a flag is set if or-ing its bit in changes nothing |
| Http2.PaddingExact | pajamax/src/http2.rs:125-139 | what is handed on of a padded payload is the content between pad length and padding, not empty; of another, all; every other payload is refused |
| Http2.PriorityExact | pajamax/src/http2.rs:142-152 | the header block is what follows five octets of priority, if flagged, inside the padding, if flagged; every other payload is refused |
| Http2.OnlyPaddingIsRefused | pajamax/src/http2.rs:132-134 | padding without content is an error |
| Writer.BuildResponse | pajamax/src/http2.rs:246-305 | a reply appends its three frames, and the encoder ranks advance |
| Writer.BuildStatus | pajamax/src/http2.rs:307-334 | a failure appends one HEADERS frame with END_STREAM |
| Writer.BuildMessage | pajamax/src/http2.rs:267-289 | the message is built in place behind its prefix and frame header |
| Writer.BuildWindowUpdate | pajamax/src/http2.rs:336-343 | appends one WINDOW_UPDATE |
| Writer.BuildRstStream | pajamax/src/http2.rs:345-352 | appends one RST_STREAM |
| Writer.BuildSettingsAck | pajamax/src/http2.rs:354-359 | appends one SETTINGS acknowledgement |
| Writer.BuildPingAck | pajamax/src/http2.rs:361-368 | appends one PING acknowledgement |
| Writer.BuildWindowUpdates | pajamax/src/response_end.rs:66-73 | nothing for a batch of length 0, else the connection's update and one for each stream |
| Writer.WriterTask | pajamax/src/response_end.rs:42-93 | the loop writes the octets of the jobs in the order they come |
| Writer.WriterReadsBack | pajamax/src/response_end.rs:50-77 | cut into frames, the octets written are the frames of the jobs and no rest |
| Writer.ClientReadsJobs | pajamax/src/response_end.rs:50-77 | for every order of jobs that HTTP/2 has room for, a client that decodes by RFC 7541 reads what they intended, with at most two table entries |
| Frames.DirectRefinesBuffered | pajamax/src/connection.rs:316-376 | appending DATA in pieces and then ending the frame does what process_frame does with the whole payload, exactly when no CONTINUATION is awaited and the stream is not 0, or END_STREAM leaves an open stream with octets that are no message |
| Frames.DataOnZero | pajamax/src/connection.rs:348-355 | reachable: DATA on stream 0 is counted and dropped, where process_frame refuses it |
| Frames.DataBeforeContinuation | pajamax/src/connection.rs:348-355 | reachable: so is DATA between HEADERS and CONTINUATION |
| Frames.FramePanicsExact | pajamax/src/connection.rs:407-630 | a frame panics if and only if it is a PING to be answered whose payload is not eight octets, or completes a header block that panics |
| Frames.EmptyPingPanics | pajamax/src/http2.rs:361-368 | reachable: a PING without payload as the first frame panics |
| Frames.SplitRun | pajamax/src/connection.rs:277-391 | running a + b is running a and then b from where a led |
| Connection.Connection.HandleFrame | pajamax/src/connection.rs:407-630 | process_frame in place does what the step of the specification says |
| Connection.Connection.HandleData | pajamax/src/connection.rs:441-472 | DATA that was collected: padding off, charged, appended, and dispatched at its end |
| Connection.Connection.HandleHeaders | pajamax/src/connection.rs:473-520 | HEADERS: id checked, refused when full, pending, or resolved |
| Connection.Connection.HandleContinuation | pajamax/src/connection.rs:521-559 | CONTINUATION: appended, and resolved at its end |
| Connection.Connection.HandleControl | pajamax/src/connection.rs:560-627 | the other frames, with their checks and acknowledgements |
| Connection.Connection.TakeHeader | pajamax/src/connection.rs:280-326 | one turn of the header arm takes at least one octet and keeps the run |
| Connection.Connection.TakePayload | pajamax/src/connection.rs:327-389 | one turn of the payload arm takes at least one octet and keeps the run |
| Connection.Connection.TakeTurn | pajamax/src/connection.rs:277-391 | after every turn of the loop the octets taken so far have been run, and those of DATA are sent as credit, in the batch, or of the frame being read, for the connection and for each stream |
| Connection.CountsBalance | pajamax/src/connection.rs:327-376 | wherever a run has come, credit sent, batch and the part of a DATA frame make up the DATA octets so far |
| Connection.Connection.Feed | pajamax/src/connection.rs:262-397 | one read leads where the frames of all octets so far lead; credit sent makes up all that was charged; the batch is below 2^24 + n |
| Connection.HandleConnection | pajamax/src/connection.rs:262-398 | however the octets are cut into reads, the connection ends where the frames of all the octets lead, with all credit sent in batches below 2^24 plus the longest read |
| Connection.ReplyIsDecoded | pajamax/src/connection.rs:632-640 | the payload of a reply decodes to its message |
| Ledger.StepAgrees | pajamax/src/connection.rs:407-630 | a frame changes the server's state as the ledger of the peer's streams records it |
| Ledger.DataAgrees | pajamax/src/connection.rs:441-471 | DATA, direct or collected, reaches its stream and ends it |
| Ledger.BlockAgrees | pajamax/src/connection.rs:497-519 | a complete block opens or dispatches its stream with the route of that block |
| Runs.OctetsAreFrames | pajamax/src/connection.rs:262-391 | the octets of a connection have the effect of the frames that repeated parsing finds |
| Runs.RunAgrees | pajamax/src/connection.rs:262-391 | server and ledger agree after every run |
| Runs.ReachableState | pajamax/src/connection.rs:473-558 | ids odd, increasing and at most the last; a pending block is the newest stream and not in the table; never more streams than the limit, nor will there be when the pending one opens |
| Runs.StreamsSplit | pajamax/src/connection.rs:352-376 | the streams named in HEADERS split into open, awaiting, dispatched once, reset and refused, none lost and none twice |
| Runs.StagesAdvance | pajamax/src/connection.rs:447-558 | a stream's stage only advances; what is dispatched, reset or refused stays so |
| Runs.RefusalsAreSent | pajamax/src/connection.rs:482-487 | control replies are acknowledgements, and RST_STREAM for exactly the streams refused |
| Replies.RepliesExact | pajamax/src/connection.rs:560-593 | cut into frames, the control replies are, in order: RST_STREAM to HEADERS when the table is full, and acknowledgements to SETTINGS and PING whose bit 0x1 is off, with the payload of the PING |
| Replies.RefusalsExact | pajamax/src/connection.rs:482-487 | the RST_STREAM frames are for the refused streams in the order of their HEADERS, each once, with code 7 |
| Stops.StopsExact | pajamax/src/connection.rs:407-630 | exactly which frames stop a connection, GOAWAY being the one without an error; PRIORITY, unknown kinds and WINDOW_UPDATE else change nothing |
| Stops.RunGoesOn | pajamax/src/connection.rs:262-391 | a run goes on if and only if none of its frames is such where it comes |
| Fates.StreamFates | pajamax/src/connection.rs:441-613 | a stream whose HEADERS found room is open, waits, is served or is reset exactly as its frames tell: its header block and which of END_STREAM and RST_STREAM comes first after it |
| Runs.MessageIsReassembled | pajamax/src/connection.rs:332-364 | the message of a call is its stream's DATA contents, between pad length and padding, in order of arrival, up to the first END_STREAM after its header block, less the prefix, and inflated by the encoding of its block if flagged |
| Runs.ContentsAppend | pajamax/src/connection.rs:441-459 | contents of later frames are appended to those before |
| Runs.ContentsOne | pajamax/src/connection.rs:441-459 | those of one frame are its content, if it is DATA of the stream |
| Runs.EndIsUnique | pajamax/src/connection.rs:352-362 | that END_STREAM, and so the octets of the message, is the only one |
| Refusals.BlocksAreSent | pajamax/src/connection.rs:482-519 | the blocks the server decodes are those in the frames, in order, less those of refused streams, and a stream's number is that of its own block |
| Refusals.BlockIsPieces | pajamax/src/connection.rs:521-559 | a header block is what HEADERS has of it and then the payloads of its CONTINUATION frames, in order |
| Refusals.HeadersPiece | pajamax/src/connection.rs:493-511 | HEADERS begin a block, or are one with END_HEADERS |
| Refusals.HarmlessExact | pajamax/src/connection.rs:482-487 | at any point of a run with refused blocks, all good requests that may come next get the route and encoding meant if and only if the peer's table, refused blocks decoded, is related to the server's |
| Refusals.EvictingIsHarmless | pajamax/src/connection.rs:482-487 | a refused block without literals with indexing keeps the tables related, whatever it evicts |
| Refusals.KeptMeansSame | pajamax/src/connection.rs:482-519 | over every run of blocks whose tables are related whenever one is served, the routes are those the peer meant, refused blocks decoded |
| Refusals.CallsAreReferenced | pajamax/src/connection.rs:668-701 | every call of a run, in order, is for its own block and has the route and message the peer meant by it, all blocks it sent being decoded, if the tables are related whenever a block is served |
| Refusals.CallsOfUnrefused | pajamax/src/connection.rs:668-701 | when no HEADERS is refused, routes are those of all the blocks the peer sent |
| Refusals.RefusedBlockMisroutes | pajamax/src/connection.rs:482-487 | reachable: a request that names the path of a refused block gets the route of another |
| Runs.DataIsCharged | pajamax/src/connection.rs:348-350 | every DATA frame is charged once with its whole payload |
| Credit.CreditIsConserved | pajamax/src/connection.rs:393-396 | whatever answers come between, the window updates of a connection make up its DATA octets on every stream, and on the connection if and only if there were none on stream 0 |
| Credit.CreditAtEveryTurn | pajamax/src/connection.rs:348-350 | inside a read and with answers in between, what a client is given, the batch and the part of a DATA frame make up its DATA octets so far; those on stream 0 count twice |
| Credit.ServedFit | pajamax/src/connection.rs:393-396 | the jobs a connection leaves fit HTTP/2, control replies included, when reads are shorter than 2^31 - 2^24 octets |
| Credit.ClientGetsCredit | pajamax/src/response_end.rs:66-73 | cut into frames and read by a client, the octets written for a connection give it the credit for the DATA it sent, with answers in any order |
| Credit.ZeroCountsTwice | pajamax/src/connection.rs:348-350 | reachable: one octet of DATA on stream 0 gives the connection two |
| Dispatch.SendResponse | pajamax/src/response_end.rs:96-132 | the answer goes to the writer as a job that means its message, or its status and text, to the client; or the closed channel is reported |
| Dispatch.DispatchRequest | pajamax/src/dispatch.rs:38-61 | the request goes to its shard, or its stream is told status 14 |
| Dispatch.StepKeeps | pajamax/src/dispatch.rs:38-61 | every step of any task keeps one token for each call |
| Dispatch.StreamsEndOnce | pajamax/src/response_end.rs:96-132 | in every interleaving, nothing is said on a stream after its END_STREAM, and only dispatched streams are answered |
| Dispatch.OctetsEndOnce | pajamax/src/http2.rs:294-304 | both of the octets written, when HTTP/2 has room for the jobs |
| Answers.AnswerIsRead | pajamax/src/response_end.rs:96-132 | from every interleaving: an answer of a handler or shard, or for a shard that is gone, adds to what the client reads the headers, message and trailers, or the status and text, on its own stream; and nothing if the writer is gone |
| DictStore.MyDictShard.Handle | examples/src/dict_store.rs:41-78 | a set stores its value and a delete removes its key, other keys keep theirs, and the reply is the value before, that there was none, or all entries |
| DictStore.ShardRoutine | examples/src/dict_store.rs:151-160 | a shard that works off its queue gives the replies and ends with the map of those requests |
| DictStore.ShardIsRestriction | examples/src/dict_store.rs:22-34 | a shard's dictionary is the part of the one map whose keys hash to it |
| DictStore.ShardsAreOneMap | examples/src/dict_store.rs:22-86 | however the shards interleave, every reply is that of one map serving in dispatch order, and what has none still waits |
| DictHistory.MapHolds | examples/src/dict_store.rs:41-65 | a key has a value if and only if the last request that set or deleted it set that |
| DictHistory.RepliesAreRight | examples/src/dict_store.rs:22-86 | however the shards interleave, each reply is what the requests before it say: the value last set, that there is none, or exactly these values of the keys of the shard asked for |
| DictStore.RepliesOnce | examples/src/dict_store.rs:157-159 | no request is answered twice |
| DictStore.QuietShardsAreTheMap | examples/src/dict_store.rs:22-86 | with empty queues, all are answered, and the dictionaries are disjoint and together the one map |

## Left out

- TCP, the runtime, thread set-up, the accept loops, the connection balancer and the preface exchange: plumbing around libraries. Reads come as sequences of non-empty chunks; the end of the sequence is the end of the connection.
- gzip, deflate and zstd: `Config.inflate` stands for them, and claims about compressed messages are relative to it. Message encoding by protobuf: a reply is the octet string it encodes to, and a request that does not decode is the event `GiveUp`.
- The texts of errors: `Error` keeps their kinds. Log lines are left out, and so are the values of the peer's settings, which the code only logs.
- The state of decoder and cache after an error: the connection ends there, and the model only says that nothing was sent or started by the frame.
- The rows of the decode table: `HuffmanDecode.TableRow` derives a row from the code. The rows of the encode table are given by their lengths, as the code words are the canonical ones.
- Machine widths, where they cannot be reached: lengths and positions are unbounded. Where they show on the wire they are modelled: frame lengths are cut to 24 bits, identifiers to 31, credit and message lengths to 32, the count of a listing to 32.
- The order of the entries in a ListShard reply, which is that of a hash map: the reply holds them as a map. The hash of keys is a parameter.
- Memory: buffers, capacities, reuse of the output buffer and the slices borrowed from it.
- Two handlers or shards that run at the same time inside one step: a step of `Dispatch.Step` is what happens between two awaits. Answering from a shard in any order is included.
- Splitting replies to the peer's frame size, per-stream flow control towards the client, and Header and settings validation of the standard that the code does not do.
- The other examples, benchmarks, the build script, the configuration builder, macros and status types.
- Refusals.CallsAreReferenced: assumes of every block that the standard reads it, and of those served that they have one path and that a service has it; otherwise the connection ends with an error or is one of the cases above.
- Dispatch.OctetsEndOnce: assumes that the jobs fit, as its batches and frames are arbitrary; Credit.ServedFit shows it of the jobs of a connection.
- Writer.ClientReadsJobs: assumes payloads below 2^24 octets and stream ids and credit below 2^31, which HTTP/2 has no room for otherwise. Credit.ServedFit discharges this for the jobs of the read loop; for answers it remains a bound on their size.
