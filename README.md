# webrtc-transfer, web-mcping, wsstream and build tools: a verified model

This project models, in Dafny, the self-contained logic of a repository that is
otherwise mostly browser glue. The parts modelled are these:

- **Chunked file transfer** (`webrtc-transfer/src/filetransfer.ts`). A sender (`FileSend`) and a receiver (`FileReceiveService`) move a file over an ordered message channel.
  - JSON control frames carry the handshake (`send`/`recv`), the missing-chunk lists and the finish.
  - Binary data frames carry chunks. Each frame has a 32-byte little-endian header: magic `0xC09FE7AD`, a u32 index, a u64 length and 16 reserved bytes.
  - The chunk layout comes from `calcChunkInfo`.
  - The receiver stores chunks in an index-addressed sink that tracks which chunks are present.
- **Chunk readers and writers** (`fileoperate.ts`, `fsapi-writer.ts`). A chunk-range reader over a file, an in-memory writer, and a writer that keeps a presence bitmap while writing straight to a file.
- **Packet codec** (`web-mcping/src/ping.ts`). `Packet` is a byte buffer with separate read and write cursors. It implements the VarInt and length-prefixed packet framing of the Minecraft Java Edition network protocol. Every read and write either completes or leaves the cursors as they were.
- **Web socket stream** (`html/wsstream.ts`). It has three parts:
  - a growable receive buffer;
  - the decode-until-no-progress loop of `MessageStream`;
  - the `WebSocketStream` queue, in which pending readers and buffered events never coexist.
- **Priority registries** (`svchandle.ts`, `webrtcsvc.ts`, `context.ts`). These cover:
  - stable priority insertion;
  - the handle lifecycle pending → ready → invalid;
  - the comparator-sorted, cached callback chain of `WebRTCContext`;
  - the `label|uuid` data-channel label.
- **Build tools** (`tools/variables.py`, `tools/template.py`, `tools/sourcekits.py`). These cover:
  - dotted-key variables with a system-override layer;
  - the `{{ key }}` / `{{ "key" }}` template scanner and renderer, with POSIX shell quoting;
  - archive folder naming and the `Content-Disposition` `filename=` parameter;
  - the download cache record and the detection of a single root folder in an archive.
- **Version list** (`web-mcping/src/protocol-versions.ts`). It rectifies the packets of each version, resolves numeric references, keeps the elements with a protocol id and reverses the list.

Imperative code is modelled as classes with their fields, `modifies` clauses and loops, each method proved against specification functions. Pure code is modelled as functions and lemmas.

The following are made explicit:

- **Channels, sockets and callbacks.** A channel is a log of sent frames. Callbacks and connections are plain numbers, and every callback invocation is logged. Promises are numbered, and their settlements are appended to a log.
- **Events.** Incoming events, timer expiries and the results of awaited calls are method calls or parameters.
- **JavaScript numbers.** `Math.ceil` of a quotient becomes integer ceiling division. `>> 0` maps a zero chunk size to the layout `(0, 0)`. Bit lengths replace `Math.log2`. 32-bit masking of VarInts is written out.

Two behaviours worth knowing:

- The receiver does not check the session id on the finish frame.
- `Variables.sync` adopts the merged data only when the merge loop does not raise, because that loop sits outside the `try`/`finally`.

## Model

| member | source | states |
|---|---|---|
| FileTransfer.CalcChunkInfo | webrtc-transfer/src/filetransfer.ts:8-12 | for a positive chunk size, `count` is the ceiling of size/chunkSize: `(count-1)*chunkSize < size <= count*chunkSize`, and it is 0 only for an empty file. For any non-zero chunk size `last` is size mod |chunkSize|, as JavaScript's `%` gives for a non-negative size. A zero chunk size gives (0, 0), because `>> 0` turns Infinity and NaN into 0. A negative one gives `count <= 0` |
| FileTransfer.BlobSlice | webrtc-transfer/src/filetransfer.ts:371-373 | `Blob.slice(start, end)` inside the blob is exactly that byte range |
| FileTransfer.ChunkOfHasChunkLength | webrtc-transfer/src/filetransfer.ts:371-373 | the chunk the sender slices for an index below `count` has the length the writers must accept: `chunkSize`, except the final chunk, which has `last` bytes, or `chunkSize` bytes when `last` is 0 |
| FileTransfer.ChunkLengthAsWrittenRejectsFullLastChunk | webrtc-transfer/src/filetransfer.ts:87-90 | example: a 100-byte file in 50-byte chunks has layout (2, 0). The sender slices 50 bytes for chunk 1, but the rule as written demands 0 bytes |
| FileTransfer.HeaderFields | webrtc-transfer/src/filetransfer.ts:159-168 | bytes 0..3 of a frame hold MAGIC, bytes 4..7 the index mod 2^32 and bytes 8..15 the payload length, each little-endian |
| FileTransfer.Encode | webrtc-transfer/src/filetransfer.ts:159-168 | `encode`: 32 header bytes (magic, index mod 2^32, payload length, 16 reserved zero bytes), then the payload. `DecodeEncode` is the round trip |
| FileTransfer.EncodedHeader | webrtc-transfer/src/filetransfer.ts:159-168 | the three header fields of an encoded frame read back as MAGIC, the index mod 2^32 and `byteLength - 32` |
| FileTransfer.Decode | webrtc-transfer/src/filetransfer.ts:170-183 | `decode`: a RangeError for a buffer too short for a header read, an error for a wrong magic or a length field other than `byteLength - 32`, and otherwise the index field and the payload. `DecodeSucceedsIff` and `EncodeDecode` characterise it |
| FileTransfer.DecodeFields | webrtc-transfer/src/filetransfer.ts:170-183 | a buffer with the magic and a length field equal to `byteLength - 32` decodes to its index field and the bytes from offset 32 on |
| FileTransfer.DecodeEncode | webrtc-transfer/src/filetransfer.ts:159-183 | `decode(encode(i, d)) == (i mod 2^32, d)` for every payload shorter than 2^64 bytes |
| FileTransfer.DecodeSucceedsIff | webrtc-transfer/src/filetransfer.ts:170-183 | `decode` succeeds exactly when the buffer has at least 32 bytes, the magic, and a length field equal to `byteLength - 32`. It then returns the index field and the payload; otherwise it throws |
| FileTransfer.HeaderPrefixOfBytes | webrtc-transfer/src/filetransfer.ts:162-164 | a 16-byte header that starts with the magic is the encoding of its own index and length fields |
| FileTransfer.EncodedHeaderBytes | webrtc-transfer/src/filetransfer.ts:159-168 | re-encoding the fields of a well-formed buffer gives its first 16 bytes, then 16 zero bytes, then its payload |
| FileTransfer.EncodeDecode | webrtc-transfer/src/filetransfer.ts:159-183 | for every buffer `decode` accepts, encoding the result rebuilds the buffer with bytes 16..31 zeroed. The reserved bytes are the only thing decoding loses |
| FileTransfer.GapsUpToExact | webrtc-transfer/src/filetransfer.ts:116-126 | the gaps listed below `n` are exactly the empty slots below `n`, in strictly ascending order |
| FileTransfer.GapsExact | webrtc-transfer/src/filetransfer.ts:116-126 | `check`'s list holds exactly the indices of the empty slots, in strictly ascending order |
| FileTransfer.FilledBytesUpdate | webrtc-transfer/src/filetransfer.ts:97-99 | storing a chunk adds its length to the stored byte count on first fill, and nothing on a refill of the same length |
| FileTransfer.ChunksCoverFile | webrtc-transfer/src/filetransfer.ts:370-373 | the sender's chunks from index `from` up to `count`, concatenated, are the file from offset `from*chunkSize` on |
| FileTransfer.FullCacheAssemblesFile | webrtc-transfer/src/filetransfer.ts:103-114 | a cache whose slot `i` holds the sender's chunk `i` for every `i` flushes to exactly the sent file |
| FileTransfer.BasicFileWriter.constructor | webrtc-transfer/src/filetransfer.ts:63-69 | no file info, an empty cache, chunk and last sizes 0 |
| FileTransfer.BasicFileWriter.Open | webrtc-transfer/src/filetransfer.ts:71-80 | stores the info, the chunk size and the remainder. The cache gets `count` empty slots and `open` resolves true; a negative count rejects, the way `new Array` throws. Each stored chunk then has the length its slot demands |
| FileTransfer.BasicFileWriter.Write | webrtc-transfer/src/filetransfer.ts:82-101 | an index outside the cache, or a length other than the slot's demand, rejects and leaves the cache as it was. Otherwise only slot `index` changes, and the result is the chunk length on first fill or 0 on refill. The stored byte count grows by exactly the result (corrected, see the findings) |
| FileTransfer.BasicFileWriter.Check | webrtc-transfer/src/filetransfer.ts:116-126 | returns the gap list of the cache: with `GapsExact`, every empty slot, ascending |
| FileTransfer.BasicFileWriter.FlushAsWritten | webrtc-transfer/src/filetransfer.ts:103-114 | as written, `flush` always resolves: the download callback receives the info and the cache with every hole spelled "undefined", and info, cache and sizes are reset |
| FileTransfer.BasicFileWriter.Flush | webrtc-transfer/src/filetransfer.ts:103-114 | the corrected flush (see the findings): with any slot empty it rejects with "missing chunk" and changes nothing. Otherwise the download callback receives the info and the concatenated chunks, and info, cache and sizes are reset |
| FileSending.EffectiveLimit | webrtc-transfer/src/filetransfer.ts:232 | a zero (or absent) limit falls back to 16 KiB; any other limit is kept |
| FileSending.SweepOrder | webrtc-transfer/src/filetransfer.ts:370 | with no index list a sweep visits `0, 1, …, count-1`; with a list it visits the list, repeats and order included |
| FileSending.SweepFramesAt | webrtc-transfer/src/filetransfer.ts:370-376 | the k-th data frame of a sweep is the encoding of chunk `order[k]` under its own index |
| FileSending.SweepProgressAt | webrtc-transfer/src/filetransfer.ts:377-378 | the k-th progress report of a sweep is a "send" event carrying the round, the bytes of the first k+1 chunks and the total |
| FileSending.SweepBytesOfValidIndices | webrtc-transfer/src/filetransfer.ts:362-368 | a sweep over distinct valid indices reads the announced total: full chunks only, or the final chunk at its real length when it is requested |
| FileSending.SweepBytesCount | webrtc-transfer/src/filetransfer.ts:370-377 | the same byte count, for any layout whose chunks have the lengths `ChunkLength` gives |
| FileSending.SweepTotal | webrtc-transfer/src/filetransfer.ts:361-368 | the corrected byte total a sweep announces: the file size for a full sweep; otherwise full chunks, with the final chunk at its real length when it is listed. `SweepTotalIsBytesSent` proves it equals the bytes sent |
| FileSending.SweepTotalIsBytesSent | webrtc-transfer/src/filetransfer.ts:361-368 | the corrected total of a re-send equals the bytes the sweep then reads, so the last report is `acc == total` |
| FileSending.SweepTotalAsWritten | webrtc-transfer/src/filetransfer.ts:361-368 | the total as written, which counts the final chunk as `_lastChunkSize` bytes (0 on a chunk boundary). `SweepTotalAsWrittenFallsShort` shows it short of the bytes sent |
| FileSending.SweepTotalAsWrittenFallsShort | webrtc-transfer/src/filetransfer.ts:363-367 | example: a 100-byte file in 50-byte chunks, asked again for chunk 1. The total as written is 0 although 50 bytes are sent |
| FileSending.SweepLoop | webrtc-transfer/src/filetransfer.ts:369-379 | the loop's frames and reports are exactly the sweep's frames and progress events, one per visited index |
| FileSending.FileSend.constructor | webrtc-transfer/src/filetransfer.ts:229-249 | the file info is taken from the file. The limit defaults to 16 KiB and the offered chunk size is `limit - 32`. Status is idle, round 0, nothing sent |
| FileSending.FileSend.Send | webrtc-transfer/src/filetransfer.ts:251-283 | only an idle sender starts: status 1, a pending promise, one "send" handshake frame with the info and chunk size, and one "handshake" report. In any other status nothing changes |
| FileSending.FileSend.Fail | webrtc-transfer/src/filetransfer.ts:320-324 | the pending promise is rejected with the reason, and the status becomes -1 |
| FileSending.FileSend.RecvHandshake | webrtc-transfer/src/filetransfer.ts:285-325 | a "recv" reply with the right uuid and accept=true adopts a smaller positive proposed chunk size and recomputes the layout. It moves to status 2, sends a full sweep plus "finish", and advances the round. A refusal resolves false with a "cancel" report and returns to idle. A uuid mismatch, another message type or unparsable text rejects with status -1 |
| FileSending.FileSend.Accept | webrtc-transfer/src/filetransfer.ts:296-306 | the accept branch: chunk size, layout, status 2, round+1, full sweep then "finish" |
| FileSending.FileSend.RecvMissingOrFinish | webrtc-transfer/src/filetransfer.ts:327-357 | "finish" with the right uuid resolves true with a "finish" report (status 3). "missing" re-sends exactly the listed chunks in a new round, with the corrected total. Anything else rejects with status -1. The chunk layout never changes here |
| FileSending.FileSend.Send0 | webrtc-transfer/src/filetransfer.ts:359-386 | appends the sweep's frames and then one "finish" frame, and the sweep's progress reports with its total. Status, round and outcomes are unchanged (corrected, see the findings) |
| FileSending.FileSend.OnMessage | webrtc-transfer/src/filetransfer.ts:402-417 | text frames go to the handshake handler in status 1 and to the missing/finish handler in status 2. Binary frames and other statuses change nothing |
| FileReceiving.AcceptedChunkSize | webrtc-transfer/src/filetransfer.ts:486 | the accepted chunk size is at most `limit - 32` and at most the offer, and it is one of the two |
| FileTransfer.FilledBytesEmpty | webrtc-transfer/src/filetransfer.ts:484-485 | a freshly opened cache of any number of chunks holds no bytes, so a byte counter starting at 0 agrees with it |
| FileReceiving.FileReceiveService.constructor | webrtc-transfer/src/filetransfer.ts:448-455 | the limit defaults to 16 KiB, the service is idle and holds no transfer |
| FileReceiving.FileReceiveService.RecvHandshake | webrtc-transfer/src/filetransfer.ts:457-474 | a "send" offer moves to status 1 and is kept for the save callback. Any other text, unparsable text included, leaves the service idle |
| FileReceiving.FileReceiveService.SaveDecided | webrtc-transfer/src/filetransfer.ts:476-509 | a declined offer sends `accept: false` and returns to idle. An accepted one stores uuid and info and zeroes round and counter. It opens the writer at `min(limit - 32, offer)`, sends `accept: true` with that size and enters status 2; a layout the writer cannot open leaves status -1 |
| FileReceiving.FileReceiveService.SaveFailed | webrtc-transfer/src/filetransfer.ts:466-469 | a save callback or open that throws leaves status -1 and nothing else changed |
| FileReceiving.FileReceiveService.RecvData | webrtc-transfer/src/filetransfer.ts:511-530 | an undecodable frame changes nothing. A decoded one goes to the writer: stored exactly when its index is in range and its length is the slot's. The counter grows by the bytes the writer newly stores, and a "recv" report is made exactly when that is positive (`DataReceived`) |
| FileReceiving.FileReceiveService.RecvFinish | webrtc-transfer/src/filetransfer.ts:532-576 | a non-"finish" text changes nothing. With gaps left it sends "missing" with exactly `check()`'s list and advances the round. Without gaps it flushes the file to the save target, sends "finish", reports "finish" and resets to idle (`FinishReceived`) |
| FileReceiving.FileReceiveService.FinishComplete | webrtc-transfer/src/filetransfer.ts:558-575 | the no-gap branch: one download of the concatenated cache, one "finish" frame and report, then the reset |
| FileReceiving.FileReceiveService.OnMessage | webrtc-transfer/src/filetransfer.ts:592-609 | text in status 0 has exactly `RecvHandshake`'s effect. In status 2 a binary frame has exactly `RecvData`'s effect (`DataReceived`) and a text frame exactly `RecvFinish`'s (`FinishReceived`). Every other combination is ignored |
| FileOperate.BasicFileReader.constructor | webrtc-transfer/src/fileoperate.ts:140-146 | the reader has no file, and chunk size, count and last size are all -1 |
| FileOperate.BasicFileReader.SetChunkSize | webrtc-transfer/src/fileoperate.ts:121-126 | the chunk size setter stores the value and recomputes count and last size, but only when a file is open |
| FileOperate.BasicFileReader.Open | webrtc-transfer/src/fileoperate.ts:148-168 | a second open is refused with "file already opened" and changes nothing. Otherwise it stores the file and its info. An unset (negative) chunk size sets all sizes to -1; a set one computes the layout |
| FileOperate.BasicFileReader.Read | webrtc-transfer/src/fileoperate.ts:170-184 | it refuses when no file is open, returns empty bytes for an unset chunk size and refuses an index outside `[0, count)`. Otherwise it returns the chunk's byte range, which for a positive chunk size is exactly the chunk the sender slices (corrected, see the findings) |
| FileOperate.BasicFileReader.Close | webrtc-transfer/src/fileoperate.ts:186-193 | back to the constructor's state |
| FileOperate.ReadRangeIsChunk | webrtc-transfer/src/fileoperate.ts:181-183 | the corrected read range of chunk `i` is the sender's chunk `i` |
| FileOperate.ReadRangeAsWrittenIsEmpty | webrtc-transfer/src/fileoperate.ts:182 | example: a 100-byte file in 50-byte chunks has layout (2, 0). The final chunk as written reads the empty range 50..50; the corrected range gives bytes 50..99 |
| FileTransfer.ConcatWithHolesOfFull | webrtc-transfer/src/filetransfer.ts:108 | a cache without holes turns into the plain concatenation of its chunks, so a complete download is the file |
| FileTransfer.ConcatWithHolesLonger | webrtc-transfer/src/filetransfer.ts:108 | a blob built from a cache never holds fewer bytes than its chunks, and strictly more when a slot is empty, so a download with a hole is never the file |
| FileOperate.BasicFileWriter.constructor | webrtc-transfer/src/fileoperate.ts:238-245 | no info, an empty cache, counter and sizes 0, no downloads |
| FileOperate.BasicFileWriter.Open | webrtc-transfer/src/fileoperate.ts:247-258 | a second open is refused with "file already opened" and changes nothing. Otherwise it stores info, chunk size and remainder and opens `count` empty slots with a zero counter. A negative count fails like `new Array(-1)` |
| FileOperate.BasicFileWriter.Write | webrtc-transfer/src/fileoperate.ts:260-282 | it refuses when not open, for an index out of range and for a length other than the slot's. Otherwise only that slot changes, the counter grows on first fill only, and the result is the new running total (corrected, see the findings) |
| FileOperate.BasicFileWriter.Check | webrtc-transfer/src/fileoperate.ts:305-317 | returns exactly the empty slots, ascending (`Gaps`); it refuses when not open |
| FileOperate.BasicFileWriter.CloseAsWritten | webrtc-transfer/src/fileoperate.ts:288-303 | as written, an open writer always closes with true, whatever slots are empty; the held bytes (holes as "undefined") go to the download callback and everything resets. It refuses when not open |
| FileOperate.BasicFileWriter.Close | webrtc-transfer/src/fileoperate.ts:288-303 | the corrected close (see the findings): it reports true exactly when every slot is filled, hands the held bytes (holes as the text "undefined") to the download callback and resets; it refuses when not open |
| FsApiWriter.UnmarkedUpToExact | webrtc-transfer/src/fsapi-writer.ts:118-126 | the indices listed below `n` are exactly the unmarked slots below `n`, strictly ascending |
| FsApiWriter.UnmarkedExact | webrtc-transfer/src/fsapi-writer.ts:118-126 | `check`'s list is exactly the unmarked slots of the bitmap, strictly ascending |
| FsApiWriter.MarkedBytesUpToMark | webrtc-transfer/src/fsapi-writer.ts:83-94 | marking slot `i` adds its chunk length to the byte count on first mark and nothing on a re-mark |
| FsApiWriter.MarkedBytesUpToNone | webrtc-transfer/src/fsapi-writer.ts:49-50 | an all-zero bitmap stands for no bytes, in agreement with `acc = 0` after `open` |
| FsApiWriter.AllMarkedIffNoGaps | webrtc-transfer/src/fileoperate.ts:92-96 | the intended flush result (every chunk written) is true exactly when `check` finds no gap |
| FsApiWriter.SomeUnmarkedIsInverted | webrtc-transfer/src/fsapi-writer.ts:104 | the result as written, `some(c => !(c > 0))`, is the negation of every-chunk-written; a one-chunk file that fully arrived flushes to false |
| FsApiWriter.FileSystemAPIWriter.constructor | webrtc-transfer/src/fsapi-writer.ts:32-39 | no stream, an empty bitmap, counter and sizes 0 |
| FsApiWriter.FileSystemAPIWriter.Open | webrtc-transfer/src/fsapi-writer.ts:41-66 | it throws "File already opened" while a stream is open and changes nothing. Otherwise it stores info and sizes, allocates a fresh zeroed bitmap of `count` slots and zeroes the counter, all before the picker runs. A cancelled picker returns false with no stream; a picked file returns true with the stream open |
| FsApiWriter.FileSystemAPIWriter.Write | webrtc-transfer/src/fsapi-writer.ts:68-99 | it throws when no stream is open, for an index out of range and for a wrong length, and then changes nothing. Otherwise it marks only that slot and issues one positioned write at `index * chunkSize`. The counter grows on first mark only, and it returns the running total (corrected, see the findings) |
| FsApiWriter.FileSystemAPIWriter.Check | webrtc-transfer/src/fsapi-writer.ts:118-130 | returns exactly the unmarked slots (`Unmarked`); it throws when no stream is open |
| FsApiWriter.FileSystemAPIWriter.Flush | webrtc-transfer/src/fsapi-writer.ts:101-116 | it closes the stream and resets everything. It returns whether every chunk was written (the corrected result; see the findings), and throws when no stream is open |
| Ping.ToInt32 | web-mcping/src/ping.ts:282 | the 32-bit wrap lies in `[-2^31, 2^31)` and keeps every value already in that range |
| Ping.ToInt64 | web-mcping/src/ping.ts:265 | the 64-bit wrap of `setBigInt64`/`getBigInt64` lies in `[-2^63, 2^63)` and keeps every value already in that range |
| Ping.VarIntBytes | web-mcping/src/ping.ts:281-298 | the bytes `writeVarInt` emits: 7-bit groups, least significant first, every byte but the last with the continuation bit. At least one byte; `VarIntBytesShape` gives the continuation bits and `VarIntRoundTrip` the round trip |
| Ping.VarIntBytesShape | web-mcping/src/ping.ts:281-298 | every byte the writer emits but the last has the continuation bit, and the last has it clear |
| Ping.ReadStep | web-mcping/src/ping.ts:304-319 | a byte without the continuation bit ends the read with its group added. A continued byte past the 32-bit budget is refused (corrected, see the findings) |
| Ping.ReadContinued | web-mcping/src/ping.ts:310-316 | a continued byte within budget adds its group and reads on, one more byte consumed |
| Ping.ReadVarIntBytes | web-mcping/src/ping.ts:300-321 | reading the writer's groups of any value below 2^35/2^(7k) gives that value back, with its byte count, whatever follows |
| Ping.DecodeVarInt | web-mcping/src/ping.ts:300-321 | `readVarInt` on a byte sequence, with the corrected five-byte budget: the value read as a signed 32-bit integer, or too few bytes, or "VarInt too big". `VarIntRoundTrip` and `DecodeMinusOne` pin it |
| Ping.VarIntRoundTrip | web-mcping/src/ping.ts:281-321 | `readVarInt(writeVarInt(v))` is `v` wrapped to a signed 32-bit integer, consuming exactly the bytes written, whatever follows |
| Ping.SixAsWrittenValue | web-mcping/src/ping.ts:310-317 | example: the bytes 80 80 80 80 80 01 are accepted as written and read as 8, the sixth group being shifted by 35 mod 32 = 3 |
| Ping.SixByteVarIntAsWritten | web-mcping/src/ping.ts:314-318 | the same six bytes are accepted as written, but refused as "VarInt too big" by the 32-bit budget |
| Ping.BitLengthOfGroup | web-mcping/src/ping.ts:360 | the bit length of `n >= 128` is 7 more than that of `n / 128` |
| Ping.BitLengthBelow | web-mcping/src/ping.ts:360 | a value below 2^k has at most k bits |
| Ping.VarLenIsVarIntLength | web-mcping/src/ping.ts:360 | `ceil(ceil(log2(n + 1)) / 7)` is the number of bytes `writeVarInt(n)` emits, for every positive n |
| Ping.ParseOfRead | web-mcping/src/ping.ts:179-193 | a VarInt length `n >= 1` followed by at least `n` bytes parses to the id after the length, a whole size of length bytes plus `n`, and a body right after the id |
| Ping.DecodeDumped | web-mcping/src/ping.ts:357-370 | the length prefix of a dumped frame decodes to the body length |
| Ping.ParseDumped | web-mcping/src/ping.ts:179-193 | a frame of the form prefix + body + more parses to the body's id and whole size |
| Ping.WriteGroupsStores | web-mcping/src/ping.ts:281-298 | the writer loop stores exactly the VarInt bytes at the cursor and succeeds iff they fit; it then advances the cursor by their count |
| Ping.StringRoundTrip | web-mcping/src/ping.ts:323-355 | `readString` of the bytes `writeString` produced returns the same bytes and consumes the prefix and the bytes, whatever follows |
| Ping.DecodeMinusOne | web-mcping/src/ping.ts:300-321 | the bytes FF FF FF FF 0F read as the VarInt -1 |
| Ping.NegativeStringLengthAsWritten | web-mcping/src/ping.ts:341-355 | example: a string whose length VarInt is -1 passes the `readable < length` test as written and moves the cursor back by one. The corrected reader returns nothing |
| Ping.StoreAtTwice | web-mcping/src/ping.ts:327-337 | storing the length prefix and then the bytes is storing their concatenation |
| Ping.DumpedFrame | web-mcping/src/ping.ts:357-370 | after `dump` the bytes from `start` to the write cursor are the VarInt length of the body followed by the body. They parse back to the packet's id and whole size: `parse(dump(p))` recovers `p` |
| Ping.StoreAtPointwise | web-mcping/src/ping.ts:335-336 | a buffer that agrees bytewise with "bs stored at `at`" is that store |
| Ping.Packet.constructor | web-mcping/src/ping.ts:205-209 | a packet over the view with the given cursors and no id or whole size yet |
| Ping.Packet.WriteByte | web-mcping/src/ping.ts:227-234 | with free space it stores `value mod 256` at the write cursor and advances it; otherwise it returns false and changes nothing |
| Ping.Packet.ReadByte | web-mcping/src/ping.ts:236-243 | with a readable byte it returns it and advances the read cursor; otherwise it returns nothing |
| Ping.Packet.Put | web-mcping/src/ping.ts:335-337 | copies the bytes to the write cursor and advances it by their count |
| Ping.Packet.WriteUnsignedShort | web-mcping/src/ping.ts:245-252 | with two free bytes it stores `value mod 2^16` big-endian and advances by 2; otherwise it changes nothing |
| Ping.Packet.ReadUnsignedShort | web-mcping/src/ping.ts:254-261 | with two readable bytes it returns their big-endian value and advances by 2; otherwise nothing |
| Ping.Packet.WriteLong | web-mcping/src/ping.ts:263-270 | with eight free bytes it stores `value mod 2^64` big-endian and advances by 8; otherwise it changes nothing |
| Ping.Packet.ReadLong | web-mcping/src/ping.ts:272-279 | with eight readable bytes it returns their big-endian value as a signed 64-bit integer and advances by 8; otherwise nothing |
| Ping.Packet.WriteVarInt | web-mcping/src/ping.ts:281-298 | the buffer receives the VarInt bytes of `value mod 2^32` (as many as fit). It succeeds iff all fit, and only then does the cursor move past them |
| Ping.Packet.ReadVarInt | web-mcping/src/ping.ts:300-321 | the result is what the readable bytes decode to. Too few bytes leave the cursor and return nothing; an over-long VarInt throws "VarInt too big" with the cursor restored; a value advances the cursor by its length (corrected, see the findings) |
| Ping.Packet.WriteString | web-mcping/src/ping.ts:323-339 | with room for prefix and bytes it stores both and advances. Otherwise it returns false with the cursor restored; a prefix that was stored stays in the buffer |
| Ping.Packet.ReadString | web-mcping/src/ping.ts:341-355 | returns the length-prefixed bytes and consumes them. A short or truncated input returns nothing and restores the cursor; a negative length is refused (corrected, see the findings) |
| Ping.Packet.Dump | web-mcping/src/ping.ts:357-372 | a packet whose first readable byte is not its id dumps nothing and is unchanged. Otherwise it writes the body length's VarInt just before the body and returns the bytes from there to the write cursor. Only that prefix changes and both cursors are restored; a prefix that does not fit in the reserve is an error |
| Ping.Packet.Parse | web-mcping/src/ping.ts:179-193 | parses a fresh packet over the view, exactly as `ParseSpec` says: id, whole size and cursors from the length prefix; nothing when the buffer is short; an error for an over-long VarInt (corrected, see the findings) |
| Ping.Packet.Create | web-mcping/src/ping.ts:195-203 | a packet exists iff the buffer is longer than the 8-byte reserve. Its id byte is then at offset 8 and its cursors are 8 and 9 |
| Ping.EncodePacket | web-mcping/src/ping.ts:382-388 | a packet that does not dump is refused with "Invalid packet" and its buffer is untouched. One that dumps gives exactly `dump`'s outcome: the length VarInt is stored before the body, the result is the bytes from there to the write cursor (a frame `DumpedFrame` shows to parse back), and a negative offset or an inverted range is an error. Cursors, id and size are kept |
| Ping.DecodePacket | web-mcping/src/ping.ts:390-397 | a parsed packet is appended to the list and its whole size returned; a short buffer gives 0 and the list as it was (corrected, see the findings) |
| WsStream.Grown | html/wsstream.ts:340-341 | the reallocated capacity `capacity * (expandScale or 2)` is never below the old capacity |
| WsStream.GrownToFit | html/wsstream.ts:340-347 | the corrected capacity is at least the old capacity and at least the bytes needed |
| WsStream.RelocatedOverlay | html/wsstream.ts:342-351 | copying the data behind the live bytes moved to offset 0 gives live bytes, data, then zeros |
| WsStream.AppendSpec | html/wsstream.ts:337-352 | the corrected `appendBuf`: data that fits stays in place behind `end`; otherwise the live bytes move to offset 0 of a grown buffer large enough for them and the data. `AppendExtendsLive` states the outcome |
| WsStream.AppendExtendsLive | html/wsstream.ts:337-352 | the corrected append keeps the buffer well formed and its live bytes become old live bytes plus the data. Data that fits behind `end` stays in the same buffer at the same offset. Otherwise the live range moves to offset 0 of a buffer of the scaled capacity, or of exactly the needed size |
| WsStream.AppendAsWrittenHidesData | html/wsstream.ts:337-352 | the append as written never changes the live bytes: `end` is not advanced, so the appended data is invisible to readers |
| WsStream.AppendAsWrittenExamples | html/wsstream.ts:339-351 | examples: appending 1 2 3 to the live byte 7 leaves the live bytes as just 7. A full 4-byte buffer grown by scale 2 to 8 bytes cannot take 5 more bytes, and `view.set` throws. The corrected append gives 7 1 2 3 and 1 … 9 |
| WsStream.Buf.constructor | html/wsstream.ts:323-327 | an empty buffer with nothing live |
| WsStream.Buf.Create | html/wsstream.ts:329-335 | the buffer is the view's own storage and `[start, end)` is the view's byte range, so the live bytes are the view's bytes |
| WsStream.Buf.Relocate | html/wsstream.ts:341-347 | a fresh buffer of the given size holding the live bytes at offset 0, then zeros |
| WsStream.Buf.CopyAt | html/wsstream.ts:351 | `view.set(data, at)` overlays the data at `at` and changes no other byte |
| WsStream.Buf.AppendAsWritten | html/wsstream.ts:337-352 | the buffer after the call, and whether `view.set` fitted, are those of the as-written append |
| WsStream.Buf.Append | html/wsstream.ts:337-352 | the buffer after the call is that of the corrected append |
| WsStream.Buf.AppendRelocating | html/wsstream.ts:341-351 | the relocating branch of the corrected append: a fresh buffer holding live bytes, data and zeros, with the live range covering live bytes and data |
| WsStream.Drain | html/wsstream.ts:436-442 | the decode loop of `readInner`: passes over the unread bytes until a pass appends nothing or `decode` throws. `DrainConsumesPrefix` states what it consumes and appends |
| WsStream.DrainConsumesPrefix | html/wsstream.ts:436-442 | the decode loop leaves a suffix of its input unread and only appends to the output list |
| WsStream.ReadSpec | html/wsstream.ts:420-448 | `readInner` over a sequence of arrivals: a queued message is returned at once. Otherwise each chunk is appended and drained until a message is queued; end of stream is an error with bytes buffered and the end otherwise; a failed read or a throwing `decode` fails. `ReadKeepsUnreadBytes` states what is kept |
| WsStream.ReadKeepsUnreadBytes | html/wsstream.ts:420-448 | `read` awaits at most the reads it is given, and the bytes it keeps buffered are a suffix of what was buffered plus what arrived. No byte is invented or reordered |
| WsStream.ChunkKeepsUnreadBytes | html/wsstream.ts:423-445 | the same for a read that starts by receiving a chunk |
| WsStream.SuffixStep | html/wsstream.ts:431-442 | a suffix of (a suffix of `pre + raw`) + `tail` is a suffix of `pre + raw + tail` |
| WsStream.MessageStream.constructor | html/wsstream.ts:362-366 | no receive buffer and an empty output list |
| WsStream.MessageStream.Pass | html/wsstream.ts:438-441 | one decode pass: on success the decoded messages are appended and `start` advances by the bytes consumed. A throwing `decode` leaves list and buffer as they were |
| WsStream.MessageStream.DecodePasses | html/wsstream.ts:436-442 | the inner loop's output list, unread bytes and thrown error are exactly `Drain`'s |
| WsStream.MessageStream.Receive | html/wsstream.ts:431-435 | the new chunk is appended to the unread bytes, or starts the buffer when none is defined (corrected, see the findings) |
| WsStream.MessageStream.Feed | html/wsstream.ts:430-445 | receive, drain, and drop the buffer when it is empty: the output list, error and kept bytes are exactly `Drain`'s and `Kept`'s (corrected, see the findings) |
| WsStream.MessageStream.ReadInner | html/wsstream.ts:420-448 | result, awaited reads, kept bytes and output list are exactly `ReadSpec`'s. A queued message is returned, end of stream gives `undefined` (or `UnexpectedEOFError` with bytes still buffered), a failed read rejects, a throwing `decode` rejects (corrected, see the findings) |
| WsStream.MessageStream.Read | html/wsstream.ts:372-380 | the head of the output list when there is one, otherwise `readInner`; in both cases exactly `ReadSpec` (corrected, see the findings) |
| WsStream.RemoveAtKeeps | html/wsstream.ts:309-311 | removing one entry keeps the queue discipline and distinct readers, and removes only that entry's promise |
| WsStream.ReceiverJoins | html/wsstream.ts:162-166 | a new reader joins a queue of readers (or an empty one) without breaking the discipline |
| WsStream.EventJoins | html/wsstream.ts:248-296 | a buffered event joins a queue of events (or an empty one) without breaking the discipline |
| WsStream.PromisesSnoc | html/wsstream.ts:234-245 | the readers of a queue prefix grow by one entry's promise at a time |
| WsStream.PromisesWithout | html/wsstream.ts:307-311 | after cancelling reader `p`, no other reader's promise has appeared and `p`'s is gone |
| WsStream.WebSocketStream.constructor | html/wsstream.ts:112-123 | no open item, an empty queue, no close code or reason, no promises |
| WsStream.WebSocketStream.NewPromise | html/wsstream.ts:126-147 | a promise number never handed out before and in use by no reader |
| WsStream.WebSocketStream.Settle | html/wsstream.ts:131-156 | a promise settles at most once: a second resolve or reject of it is ignored |
| WsStream.WebSocketStream.Open | html/wsstream.ts:125-144 | a stored open event is consumed and `open` resolves at once. A socket neither connecting nor open rejects with an invalid-state error. Otherwise a pending open receiver is stored |
| WsStream.WebSocketStream.Read | html/wsstream.ts:146-170 | a buffered event at the head is removed: a message resolves with its data, a close with `undefined`, an error rejects. With none, a socket not open rejects, and an open one enqueues a pending reader. The discipline holds after every case |
| WsStream.WebSocketStream.OnOpen | html/wsstream.ts:199-215 | a pending open receiver is resolved and cleared; with none, the event is stored. A second event while one is stored is refused ("Unreachable") |
| WsStream.WebSocketStream.SettleReceivers | html/wsstream.ts:234-246 | settles every queued reader in order, the first with `head` and the rest with `others`, and empties the queue |
| WsStream.WebSocketStream.OnClose | html/wsstream.ts:217-250 | rejects a pending open receiver and records code and reason. With readers queued, the first resolves with `undefined`, the others reject and the queue empties; otherwise one close item is appended |
| WsStream.WebSocketStream.OnError | html/wsstream.ts:252-278 | rejects a pending open receiver. With readers queued, all reject and the queue empties; otherwise one error item is appended |
| WsStream.WebSocketStream.RejectOpen | html/wsstream.ts:218-227 | a pending open receiver is rejected and cleared; otherwise nothing changes |
| WsStream.WebSocketStream.OnMessage | html/wsstream.ts:280-298 | the first queued reader receives the data. Otherwise a message item is appended, so messages are read in arrival order |
| WsStream.WebSocketStream.CancelOpenExec | html/wsstream.ts:300-305 | clears the open slot only if it still holds this receiver, and rejects it with a timeout unless it has already settled |
| WsStream.WebSocketStream.CancelMessageExec | html/wsstream.ts:307-313 | removes the reader's first occurrence from the queue, if any. It rejects the reader with a timeout unless it has already settled |
| Priority.FindInsert | webrtc-transfer/src/svchandle.ts:100-108 | the insertion point for priority `p` follows every prioritised element with priority `<= p`. It is the first element that is unprioritised or has a strictly larger priority, or the end |
| Priority.InsertPosition | webrtc-transfer/src/svchandle.ts:96-108 | an element without priority goes to the end of the list |
| Priority.InsertAt | webrtc-transfer/src/svchandle.ts:109 | `splice(k, 0, x)` puts `x` at `k` and shifts the rest by one, order kept |
| Priority.RemoveAt | webrtc-transfer/src/svchandle.ts:137 | `splice(k, 1)` drops entry `k` and keeps the order of the rest |
| Priority.Insert | webrtc-transfer/src/svchandle.ts:96-110 | `insert`: the element is spliced in at `InsertPosition`. `InsertIsStable` says where it lands among equal priorities, and `InsertKeepsOrder` that the list stays ordered |
| Priority.InsertIsStable | webrtc-transfer/src/svchandle.ts:96-110 | in an ordered list the new element lands after every element that does not rank strictly after it, and before every element that does. Equal priorities therefore keep insertion order |
| Priority.InsertKeepsOrder | webrtc-transfer/src/svchandle.ts:96-110 | insertion keeps the list ordered: prioritised elements ascending, then the unprioritised ones |
| Priority.RemoveKeepsOrder | webrtc-transfer/src/svchandle.ts:137 | removal keeps the list ordered |
| Priority.Filter | webrtc-transfer/src/svchandle.ts:169 | `Array.filter` with the handle test: never longer than the list. `FilterKeeps`, `FilterAll` and `FilterKeepsOrder` state which elements survive and that order is kept |
| Priority.FilterKeeps | webrtc-transfer/src/svchandle.ts:169 | an element survives `filter` exactly when it was in the list and passes the test |
| Priority.FilterAll | webrtc-transfer/src/svchandle.ts:168-170 | a filter that every element passes returns the list itself |
| Priority.FilterKeepsOrder | webrtc-transfer/src/svchandle.ts:169 | filtering keeps the list ordered |
| SvcHandle.Filled | webrtc-transfer/src/svchandle.ts:156-162 | an element gets the factory's handle and keeps its priority and promise; a throwing factory leaves it as it was |
| SvcHandle.IndexOfHandle | webrtc-transfer/src/svchandle.ts:133 | the first element holding the handle, or -1 when none does |
| SvcHandle.FilledKeepsOrder | webrtc-transfer/src/svchandle.ts:155-167 | giving handles to the elements keeps the list ordered |
| SvcHandle.ReadyElements | webrtc-transfer/src/svchandle.ts:155-170 | after `makeReady` the list is ordered and every element holds a handle. An element stays exactly when its factory call succeeded |
| SvcHandle.PriorityHandleManager.constructor | webrtc-transfer/src/svchandle.ts:82-86 | an empty, pending (not ready) and valid manager |
| SvcHandle.PriorityHandleManager.Add | webrtc-transfer/src/svchandle.ts:88-124 | an invalid manager rejects with "closed" and keeps its list. A pending manager inserts a pending element by priority. A ready manager resolves the new handle and keeps the element, or rejects with the factory's error and removes exactly that element |
| SvcHandle.PriorityHandleManager.InsertElement | webrtc-transfer/src/svchandle.ts:94-110 | the element is inserted at its priority position |
| SvcHandle.PriorityHandleManager.InsertAndDrop | webrtc-transfer/src/svchandle.ts:109-120 | inserting and then removing at the same index leaves the list as it was |
| SvcHandle.PriorityHandleManager.InvalidateHandle | webrtc-transfer/src/svchandle.ts:41-46 | the handle becomes invalid and its `onInvalid` callback runs, if one is set |
| SvcHandle.PriorityHandleManager.Remove | webrtc-transfer/src/svchandle.ts:126-145 | returns true exactly for a valid, ready manager that holds the handle. It then removes exactly that element and invalidates its handle; otherwise nothing changes |
| SvcHandle.PriorityHandleManager.Release | webrtc-transfer/src/svchandle.ts:35-39 | an already invalid handle changes nothing, so `release` is idempotent. A valid one has exactly `remove`'s effect: from a valid, ready manager holding it, the element is deleted, the handle becomes invalid and its `onInvalid` runs when set; otherwise nothing changes. Ready and invalid flags, promises and watched handles never change |
| SvcHandle.PriorityHandleManager.SetOnInvalid | webrtc-transfer/src/svchandle.ts:25-30 | the callback is registered, and it runs at once when the handle is already invalid |
| SvcHandle.PriorityHandleManager.MakeReady | webrtc-transfer/src/svchandle.ts:147-172 | it does nothing on an invalid manager, and only swaps the factory on a ready one. The first call settles every pending element in list order and keeps exactly those that got a handle |
| SvcHandle.PriorityHandleManager.ResolvePending | webrtc-transfer/src/svchandle.ts:153-171 | the first-call branch: the factory's results in order, the list filtered to the elements with handles |
| SvcHandle.PriorityHandleManager.MakeInvalid | webrtc-transfer/src/svchandle.ts:174-196 | idempotent. A ready manager invalidates every handle, a pending one rejects every element with "closed". Either way the list ends empty and the manager invalid and not ready |
| SvcHandle.PriorityHandleManager.InvalidateAll | webrtc-transfer/src/svchandle.ts:180-187 | every element's handle becomes invalid, its callback running in list order |
| SvcHandle.CallFactory | webrtc-transfer/src/svchandle.ts:155-167 | the loop calls the factory once per element in order. It yields the filled elements and the settlements, and `needFilter` is false only when every call succeeded |
| SvcHandle.HandleSetSnoc | webrtc-transfer/src/svchandle.ts:180-187 | the handles of a list prefix grow one element at a time |
| WebRtcSvc.Runtime.constructor | webrtc-transfer/src/webrtcsvc.ts:36 | the global handle counter starts at 0 |
| WebRtcSvc.IndexOfHandle | webrtc-transfer/src/webrtcsvc.ts:97 | the first element with that handle, or -1 when none has it |
| WebRtcSvc.LifeCycleList.constructor | webrtc-transfer/src/webrtcsvc.ts:176 | an empty lifecycle list |
| WebRtcSvc.AddPriorityLifeCycleElement | webrtc-transfer/src/webrtcsvc.ts:57-90 | the handle is the pre-incremented global counter, so it is positive and above every earlier one. The element is inserted at its stable priority position, the list keeps distinct handles and order, and `onConstruct` runs exactly when `data` is given |
| WebRtcSvc.InsertFresh | webrtc-transfer/src/webrtcsvc.ts:68-85 | inserting an element with the next counter value keeps the list ordered, with distinct handles not above the counter |
| WebRtcSvc.RemovePriorityLifeCycleElement | webrtc-transfer/src/webrtcsvc.ts:92-107 | returns true exactly when an element has the handle. It removes that one element, order kept, and runs its `onDestruct` exactly when `data` is given; otherwise nothing changes |
| WebRtcSvc.RemoveValid | webrtc-transfer/src/webrtcsvc.ts:99 | removing an element keeps the list valid |
| WebRtcSvc.RemoveExactlyOne | webrtc-transfer/src/webrtcsvc.ts:97-99 | after removal no element has the handle any more, and the list is one shorter |
| WebRtcSvc.WebRtcService.constructor | webrtc-transfer/src/webrtcsvc.ts:172-180 | no connection and no status callbacks. The data-channel pair is the first lifecycle element, under the next counter value, and no callback runs |
| WebRtcSvc.WebRtcService.OnStatusChange | webrtc-transfer/src/webrtcsvc.ts:182-184 | appends the callback |
| WebRtcSvc.WebRtcService.OffStatusChange | webrtc-transfer/src/webrtcsvc.ts:186-191 | removes the callback's first occurrence only, and nothing when it is absent |
| WebRtcSvc.OffRemovesOne | webrtc-transfer/src/webrtcsvc.ts:186-191 | removing at `indexOf(x)` lowers the count of `x` by one and keeps the count of every other callback |
| WebRtcSvc.WebRtcService.RegisterPeerConnection | webrtc-transfer/src/webrtcsvc.ts:200-202 | a positive fresh handle and a priority insertion; `onConstruct` runs with the live connection, if there is one |
| WebRtcSvc.WebRtcService.UnregisterPeerConnection | webrtc-transfer/src/webrtcsvc.ts:209-214 | handle 0 gives false and touches nothing. Any other handle is removed exactly when present, and then the removed element's `onDestruct` runs with the live connection, if any; a handle not found leaves the list and the call log as they were |
| Strings.IndexOf | webrtc-transfer/src/webrtcsvc.ts:187 | `indexOf` gives the first position holding the value, or -1 when none does; the queue of `WebSocketStream` (html/wsstream.ts:308) uses the same function |
| WebRtcSvc.GenerateDataChannelLabel | webrtc-transfer/src/webrtcsvc.ts:354-356 | the label is `name`, one `|`, then the uuid |
| WebRtcSvc.ParseDataChannelLabel | webrtc-transfer/src/webrtcsvc.ts:358-364 | a label without `|` gives `(label, "")`. Otherwise splitting at the last `|` gives two parts that rejoin to the label, the second containing no `|` |
| WebRtcSvc.LabelRoundTrip | webrtc-transfer/src/webrtcsvc.ts:354-364 | parsing a generated label gives back `(name, uuid)` whenever the uuid has no `|` |
| WebRtcSvc.LastIndexOfAfter | webrtc-transfer/src/webrtcsvc.ts:359 | in `name + "|" + uuid` with no `|` in the uuid, the last `|` is the one at `|name|` |
| Strings.LastIndexOf | webrtc-transfer/src/webrtcsvc.ts:359 | `lastIndexOf` gives -1 exactly when the character is absent; otherwise the position of its last occurrence |
| Context.Compare | webrtc-transfer/src/context.ts:17-32 | the comparator of `buildChain`: prioritised elements before unprioritised ones, ascending priority, ties broken by insertion index. `CompareOrder` and `CompareTransitive` state these properties |
| Context.CompareOrder | webrtc-transfer/src/context.ts:17-32 | prioritised elements come before unprioritised ones, and lower priority before higher. Equal priorities (or none) are ordered by insertion index. The comparator is antisymmetric in sign, and 0 only for equal priority and index |
| Context.CompareTransitive | webrtc-transfer/src/context.ts:17-32 | the comparator is transitive, so with distinct insertion indices it is a total order |
| Context.InsertSortedPerm | webrtc-transfer/src/context.ts:102 | inserting into a sorted chain adds exactly that element |
| Context.InsertSortedSorted | webrtc-transfer/src/context.ts:102 | inserting into a sorted chain keeps it sorted |
| Context.SortChain | webrtc-transfer/src/context.ts:101-102 | `chain.sort` on the map's entries. The result has as many elements as the map; `SortChainSpec` proves it sorted by the comparator and a permutation of the entries, and `SortedUnique` proves it is the only such order |
| Context.SortChainSpec | webrtc-transfer/src/context.ts:101-102 | the sorted chain is sorted by the comparator and is a permutation of the map's entries |
| Context.SortedHeadsEqual | webrtc-transfer/src/context.ts:102 | two sorted permutations of entries with distinct insertion indices start with the same element |
| Context.SortedUnique | webrtc-transfer/src/context.ts:102 | any two sorted permutations of entries with distinct insertion indices are equal, so `chain.sort` has a single possible result whatever algorithm the engine uses |
| Context.Find | webrtc-transfer/src/context.ts:75 | the position of the entry stored under `id`, or -1 when there is none |
| Context.Put | webrtc-transfer/src/context.ts:76 | `Map.set` on the entry list: an existing key keeps its position and takes the new entry, and a new key is appended last. Its lookups are given by `PutGet`, its invariant by `PutValid` |
| Context.PutGet | webrtc-transfer/src/context.ts:76 | after `set(id, e)` the keys stay distinct, `get(id)` is `e` and every other key reads as before |
| Context.Delete | webrtc-transfer/src/context.ts:90 | `Map.delete` on the entry list: the entry found under `id` is spliced out and the rest keep their order. Its lookups are given by `DeleteGet`, its invariant by `DeleteValid` |
| Context.DeleteGet | webrtc-transfer/src/context.ts:90 | after `delete(id)` the keys stay distinct, `get(id)` is absent and every other key reads as before |
| Context.RemoveKeepsDistinct | webrtc-transfer/src/context.ts:90 | removing an entry keeps the keys distinct and leaves no other entry under its id |
| Context.RemoveKeepsOthers | webrtc-transfer/src/context.ts:90 | removing one entry does not change the lookup of any other key |
| Context.FindAt | webrtc-transfer/src/context.ts:75-76 | with distinct keys, the entry at position `k` is the one found for its id |
| Context.RunChain | webrtc-transfer/src/context.ts:56-66 | the loop calls every element's `onConstruct` (or `onDestruct`) once, in chain order |
| Context.WebRtcContext.constructor | webrtc-transfer/src/context.ts:43-50 | an empty map, no cached chain, counter 0, no connection |
| Context.WebRtcContext.BuildChain | webrtc-transfer/src/context.ts:97-105 | returns the entries sorted by the comparator and caches them. A cached chain is returned unchanged |
| Context.WebRtcContext.Register | webrtc-transfer/src/context.ts:72-83 | stores the entry under `id` with the next insertion index, replacing any old one, and drops the cached chain. With `trigger` and a live connection, the old entry's `onDestruct` runs (if any), then the new `onConstruct` |
| Context.WebRtcContext.Unregister | webrtc-transfer/src/context.ts:85-95 | deletes `id` and drops the cached chain. Only with an entry, `trigger` and a live connection does the entry's `onDestruct` run |
| Context.WebRtcContext.Destroy | webrtc-transfer/src/context.ts:62-70 | without a connection nothing changes. With one, every `onDestruct` runs in chain order, the connection and `is_caller` are cleared, and the chain is cached |
| Context.WebRtcContext.Create | webrtc-transfer/src/context.ts:52-60 | destroys first, which clears `is_caller` when a connection was live, then installs the new connection and runs every `onConstruct` in chain order |
| Context.PutValid | webrtc-transfer/src/context.ts:76 | `register` keeps keys and insertion indices distinct and below the new counter |
| Context.DeleteValid | webrtc-transfer/src/context.ts:90 | `unregister` keeps keys and insertion indices distinct and below the counter |
| Variables.SetPath | tools/variables.py:50-60 | `plain_set` over the split key: walks the parts before the last, creating an empty object for an absent or `null` part, and fails at a part holding something else: `TypeError` when that part is the last container (the item assignment at variables.py:60), `AttributeError` when more parts follow (the `.get` at variables.py:54). `SetPathSucceeds` states exactly when it succeeds; `SetThroughNonObject` shows both labels |
| Variables.PlainSet | tools/variables.py:50-60 | `plain_set(data, key, value)`: `SetPath` on the key split at `.`. `GetAfterSet` and `SetKeepsOthers` state what reads back afterwards |
| Variables.GetPath | tools/variables.py:62-70 | `plain_get` over the split key: `null` at the first absent or `null` part (Python's `None`), an error where `.get` reaches a non-object, and otherwise the value found |
| Variables.PlainGet | tools/variables.py:62-70 | `plain_get(data, key)`: `GetPath` on the key split at `.`. `GetAfterSet` shows it reads back what `plain_set` stored |
| Variables.SetThroughNonObject | tools/variables.py:53-60 | a string under `a` makes `a.b` raise `TypeError` and `a.b.c` raise `AttributeError` |
| Variables.SetPathSucceeds | tools/variables.py:50-60 | `plain_set` succeeds exactly when every part before the last that is present holds an object; an absent or `null` part gets a new empty object |
| Variables.EmptyPathClear | tools/variables.py:50-60 | `plain_set` into an empty document never raises |
| Variables.GetAfterSet | tools/variables.py:50-70 | after a successful `plain_set(d, k, v)`, `plain_get(d, k)` yields `v` |
| Variables.SetKeepsOthers | tools/variables.py:50-70 | a successful `plain_set` leaves every path that parts ways with the set key reading as before |
| Variables.Merge | tools/variables.py:24-26 | the merge loop of `sync`: each modified key's value is read from the in-memory data and written into the loaded document. The first key whose read or write raises stops the loop with `ok` false. `MergeCarries` and `MergeKeeps` state the result |
| Variables.MergeCarries | tools/variables.py:24-26 | when the merge loop of `sync` completes over keys whose paths part ways, each merged key reads in the result as it does in the in-memory data |
| Variables.MergeKeeps | tools/variables.py:24-26 | the merge leaves every path that parts ways with all merged keys reading as in the loaded file |
| Variables.VariableStore.constructor | tools/variables.py:10-15 | the given system overrides, empty data, nothing modified |
| Variables.VariableStore.GetItem | tools/variables.py:34-37 | a system key returns its override. Any other key returns the dotted lookup in `data`, with `null` for a missing part and an error where a non-object is followed |
| Variables.VariableStore.SetItem | tools/variables.py:39-44 | a system key updates only `sys`. Any other key is stored by `plain_set` and added to `modified`; if `plain_set` raises, nothing changes |
| Variables.VariableStore.Sync | tools/variables.py:17-32 | writes the current value of every modified key into the loaded document. On success that document replaces `data` and `modified` is emptied. If the merge raises, data and `modified` stay as they were |
| Template.Scan | tools/template.py:17 | reading the rest of a placeholder either fails or ends just after a closing `}}` inside the text |
| Template.MatchAt | tools/template.py:17 | a placeholder found at `i` starts with `{{`, ends with `}}` and is at least four characters long |
| Template.SearchLeftmost | tools/template.py:41 | the search returns the leftmost placeholder at or after `from`, and reports none only when no position from there on starts one |
| Template.SearchNone | tools/template.py:41 | text without `{{` contains no placeholder |
| Template.KeyOf | tools/template.py:42-52 | the key and kind of a capture group. `KeyOfCases` states the three cases |
| Template.KeyOfCases | tools/template.py:42-52 | a key quoted on both sides is unquoted and gets kind 1. An unquoted key gets kind 0. A key quoted on one side only is a `ValueError` |
| Template.FindAll | tools/template.py:41 | the placeholders `finditer` yields, in order, non-overlapping and inside the chunk |
| Template.Template.Parse | tools/template.py:39-62 | appends the chunk's parts: each non-empty literal gap and each placeholder, in order, and the non-empty suffix. The key counts stay equal to the placeholders present. On a one-sided quote it fails after appending the parts before that placeholder |
| Template.FirstBadKey | tools/template.py:41-52 | the index of the first match whose key is quoted on one side only: every earlier key is accepted and that one is refused, or it is the number of matches when every key is accepted |
| Template.ParseChunk | tools/template.py:39-62 | `_parse(chunk)`: with a bad key, the parts of the matches before it and a `ValueError`; otherwise the parts of all matches and the non-empty suffix. `ParseLiteralsNonEmpty` and `ParseNoPlaceholder` state its shape |
| Template.Template.ParseMatches | tools/template.py:41-62 | the loop over the matches appends the parts up to the first bad key and then stops with failure; with no bad key it appends all parts and the suffix |
| Template.Template.ParseAll | tools/template.py:26-33 | parses the file line by line until the end or an empty read, stopping at the first line that raises |
| Template.ParseLiteralsNonEmpty | tools/template.py:55-62 | a parsed chunk holds no empty literal part |
| Template.ParseNoPlaceholder | tools/template.py:39-62 | a chunk without `{{` parses, without failure, to itself as a single literal (or to nothing when empty) |
| Template.CountVarsCounts | tools/template.py:58 | `vars[k]` is present exactly when some part has key `k`, and then it counts those parts |
| Template.KeysCounted | tools/template.py:58 | every placeholder's key is in `vars` |
| Template.ShellQuote | tools/template.py:78 | `shlex.quote` returns its argument unchanged exactly when it is non-empty and made only of safe characters |
| Template.ShellWordSafe | tools/template.py:78 | a word made of safe characters reads back as itself in a POSIX shell |
| Template.ShellWordEscaped | tools/template.py:78 | single-quoting with each `'` replaced by `'"'"'` reads back as the original text |
| Template.ShellQuoteRoundTrip | tools/template.py:78 | a POSIX shell reads the quoted value back as exactly the value |
| Template.RenderedAppend | tools/template.py:72-79 | rendering a concatenation of parts is the concatenation of their renderings |
| Template.RenderNoPlaceholder | tools/template.py:39-79 | a chunk without placeholders renders back to itself |
| Template.Template.CacheValues | tools/template.py:66-71 | succeeds exactly when every counted key has a value, and then caches each key's value |
| Template.Template.RenderInto | tools/template.py:64-81 | fails, writing nothing, when some key has no value. Otherwise it writes every part in order, literals as is, kind-0 keys as their value and kind-1 keys shell-quoted |
| Template.WriteParts | tools/template.py:72-79 | the write loop produces the rendering of all parts with the cached values |
| Template.NewTemplate | tools/template.py:20-37 | with neither a file nor a non-empty template string it is an error. A file is parsed line by line, otherwise the template string; construction succeeds exactly when parsing does, giving those parts |
| SourceKits.Basename | tools/sourcekits.py:206 | the base name contains no `/` and ends the path |
| SourceKits.FirstSuffix | tools/sourcekits.py:207-208 | the index of the first suffix, in argument order, that the name ends with, or the number of suffixes when none matches |
| SourceKits.FolderName | tools/sourcekits.py:205-210 | the loop of `folder_name` computes the specified folder name |
| SourceKits.DropSuffix | tools/sourcekits.py:207-208 | `name[:-len(ext)]`, Python's slice: an empty suffix gives the empty string. `FolderNameStrips` shows the kept part plus the suffix is the name |
| SourceKits.FolderNameStrips | tools/sourcekits.py:205-209 | when suffix `k` is the first that matches, the folder name followed by that suffix gives back the base name |
| SourceKits.FolderNameUnmatched | tools/sourcekits.py:210 | with no matching suffix the folder name is the base name followed by `.extracted` |
| SourceKits.ParseFilename | tools/sourcekits.py:160-175 | the loop of `parse_filename` computes the specified result, including the `ValueError` raised on a parameter without exactly one `=` |
| SourceKits.FilenameNeedsAttachment | tools/sourcekits.py:163-167 | a value or an error comes only from a header with at least two `;` parts whose trimmed, lower-cased first part is `attachment` |
| SourceKits.FilenameFirst | tools/sourcekits.py:168-174 | the first `filename` parameter decides the result, provided the parameters before it are well-formed |
| SourceKits.FilenameMalformed | tools/sourcekits.py:169 | a malformed parameter before any `filename` parameter makes the parse raise |
| SourceKits.FilenameValue | tools/sourcekits.py:171-174 | the value of a `filename` parameter: a quoted value goes through `json.loads` (a decode error where it raises), any other is returned as it is. `FilenamePlain` states the unquoted case |
| SourceKits.FilenamePlain | tools/sourcekits.py:171-174 | an unquoted value is returned as it is |
| SourceKits.ReadRecord | tools/sourcekits.py:373-380 | the tail of `read_cache_info`: `(None, None)` for a false value, an `AttributeError` for a non-string, an `IndexError` for a string without `;`, otherwise the first two `;` fields. `RecordRoundTrip` is the round trip with the writer |
| SourceKits.RecordRoundTrip | tools/sourcekits.py:371-380 | a `url;path` record whose fields hold no `;` reads back as those two fields |
| SourceKits.UnsetCacheInfo | tools/sourcekits.py:374-376 | a key never recorded reads as `(None, None)`: either there is no `_dlcache` object, or it is an object without that (dot-free) key |
| SourceKits.SourceKit.WriteCacheInfo | tools/sourcekits.py:370-371 | stores the record under `_dlcache.<key>` with `__setitem__`, failing with no change where that raises. When the fields hold no `;`, reading it back gives them |
| SourceKits.SourceKit.ReadCacheInfo | tools/sourcekits.py:373-380 | looks the record up with `__getitem__` and splits it: `(None, None)` for a false value; an error for a non-string or a string without `;` |
| SourceKits.FindRootAsWritten | tools/sourcekits.py:230-278 | as written, the member loop finds a root exactly when the first member is a directory and every member's path starts with its path |
| SourceKits.PrefixAcceptsSibling | tools/sourcekits.py:237 | the plain prefix test accepts `ab` as lying inside the directory `a` |
| SourceKits.FindRoot | tools/sourcekits.py:230-278 | finds a root exactly when the first member is a directory and every member lies inside it: equal to it or below it |
| SourceKits.InsideSlashDir | tools/sourcekits.py:276 | for a directory path ending in `/`, the prefix test and lying inside agree |
| SourceKits.TarPlacement | tools/sourcekits.py:226-247 | a non-empty single root folder is extracted in place; otherwise the archive is wrapped in the folder named after it with the first matching tar suffix removed (corrected, see the findings) |
| SourceKits.StripSlash | tools/sourcekits.py:280-281 | removes exactly one trailing `/`, if there is one |
| SourceKits.ZipPlacement | tools/sourcekits.py:268-288 | as the tar case, with one trailing `/` stripped from the root, and `.zip` as the only suffix |
| ProtocolVersions.Wrap | web-mcping/src/protocol-versions.ts:35-44 | a side becomes a table: an array turns into `{play: array}` with that one key, and a table stays as it is |
| ProtocolVersions.WrapIdempotent | web-mcping/src/protocol-versions.ts:34-46 | rectifying twice is the same as rectifying once |
| ProtocolVersions.Packets.Rectify | web-mcping/src/protocol-versions.ts:34-46 | both sides of the packets object are replaced in place by their rectified form |
| ProtocolVersions.Element.constructor | web-mcping/src/protocol-versions.ts:22-27 | an element with the given name, `protocol_id` and packets field |
| ProtocolVersions.Final | web-mcping/src/protocol-versions.ts:55-58 | the packets value the loop leaves in an element: an object stays; a number takes what the named element holds when the loop reaches it. `FinalIsOriginal`, `FinalShares` and `FinalKeepsObject` state its properties |
| ProtocolVersions.FinalIsOriginal | web-mcping/src/protocol-versions.ts:55-58 | every resolved packets value is some element's original value: references share objects and never copy them |
| ProtocolVersions.FinalShares | web-mcping/src/protocol-versions.ts:56-58 | a number naming an element with a packets object receives that very object |
| ProtocolVersions.FinalKeepsObject | web-mcping/src/protocol-versions.ts:59-61 | an element that already holds a packets object keeps it |
| ProtocolVersions.Resolve | web-mcping/src/protocol-versions.ts:54-61 | one turn of the loop for one key: an object stays; a number takes the value of the key it names, and a missing key is the `TypeError`. The set of keys is kept |
| ProtocolVersions.Run | web-mcping/src/protocol-versions.ts:53-65 | the whole loop over the keys in order, stopping at the first failing turn. The set of keys is kept; `RunResolves` states when it completes and what it leaves |
| ProtocolVersions.RunResolves | web-mcping/src/protocol-versions.ts:53-65 | the loop completes exactly when every number names an existing key, and then leaves each element holding its resolved value |
| ProtocolVersions.DefinedMembers | web-mcping/src/protocol-versions.ts:62-64 | an element is pushed exactly when it has a `protocol_id` |
| ProtocolVersions.ReverseAt | web-mcping/src/protocol-versions.ts:68 | the reversed list holds at position `k` the element at `n - 1 - k` |
| ProtocolVersions.ReverseReverse | web-mcping/src/protocol-versions.ts:68 | reversing twice gives the list back |
| ProtocolVersions.SetPackets | web-mcping/src/protocol-versions.ts:58 | assigning `element.packets` changes that element's field and no other |
| ProtocolVersions.Step | web-mcping/src/protocol-versions.ts:54-61 | one turn of the loop fails exactly on a number naming a missing key. Otherwise it resolves and rectifies the element's packets and keeps the loop invariant |
| ProtocolVersions.ResolveLoop | web-mcping/src/protocol-versions.ts:52-66 | the loop succeeds exactly as the reference run does. It leaves the fields as that run computes them, pushes the elements with a `protocol_id` in iteration order, and rectifies each packets object it reaches |
| ProtocolVersions.AllCovered | web-mcping/src/protocol-versions.ts:53-61 | every packets object of the document is reached by the loop |
| ProtocolVersions.GetVersions | web-mcping/src/protocol-versions.ts:48-69 | fails (the `TypeError` of a missing reference) exactly when some number names no element. Otherwise it returns the elements with a `protocol_id` in reverse iteration order, each element holding its resolved packets, and every packets object rectified |
| Bytes.LeValueOfBytes | webrtc-transfer/src/filetransfer.ts:159-183 | decoding the little-endian encoding of a value in range gives the value back |
| Bytes.LeBytesOfValue | webrtc-transfer/src/filetransfer.ts:159-183 | encoding the value of a little-endian byte string gives the bytes back |
| Bytes.BeValueOfBytes | web-mcping/src/ping.ts:245-279 | decoding the big-endian encoding of a value in range gives the value back |
| Bytes.BeBytesOfValue | web-mcping/src/ping.ts:245-279 | encoding the value of a big-endian byte string gives the bytes back |
| Strings.Split | tools/variables.py:51 | `str.split` with one separator character: at least one piece, and no piece contains the separator |
| Strings.SplitNoSeparator | tools/variables.py:51 | a string without the separator splits into itself alone |
| Strings.SplitAtSeparator | tools/sourcekits.py:377 | splitting at the first separator gives the part before it, followed by the split of the rest |
| Strings.JoinSplit | tools/variables.py:51 | joining the pieces with the separator gives the string back |
| Strings.TrimLeft | tools/sourcekits.py:166 | removes exactly the leading white space: the result is a suffix, everything removed is white space, and the result does not start with white space |
| Strings.TrimRight | tools/sourcekits.py:166 | removes exactly the trailing white space: the result is a prefix, everything removed is white space, and the result does not end with white space |
| Strings.Strip | tools/sourcekits.py:166 | `str.strip()`: never longer than the string, and a non-empty result neither starts nor ends with white space |
| Strings.StripSlice | tools/sourcekits.py:166 | the stripped string is a contiguous slice of the original, and everything removed before and after it is white space |
| Strings.Lower | tools/sourcekits.py:167 | lower-cases the letters `A`-`Z` character by character, keeping the length |
| Strings.NatToString | web-mcping/src/protocol-versions.ts:56 | a non-empty string of decimal digits |
| Strings.IntToString | web-mcping/src/protocol-versions.ts:56 | `String(n)` for an integer: non-empty, a minus sign exactly for a negative number, then decimal digits |
| Strings.NatToStringValue | web-mcping/src/protocol-versions.ts:56 | the digits of `n` read back as `n`, so distinct numbers name distinct keys |

## Left out

- Transport and browser glue: `RTCDataChannel`, `RTCPeerConnection`, the connection and data-channel lifecycle of `WebRTCService` beyond its list helpers, the negotiators and the signaling code. They are event plumbing over browser APIs. A channel is modelled as the log of frames sent on it.
- Asynchrony: promises, `await`, `setTimeout`/`clearTimeout`, `spawn` and `newTask` are modelled as synchronous calls and logged settlements. Interleavings of concurrent tasks are not modelled, and `send0` runs to completion in one call.
- Error messages: an error carries the fixed text of the source's message, and the values a template literal interpolates into it are left out. So the writers' errors are `index out of range`, `last chunk size mismatch` and `chunk size mismatch`, without the index and the two lengths (fileoperate.ts:179, 265, 269, 273; filetransfer.ts:85, 89, 94). `decode` fails with `invalid magic number` and `invalid data size`, without the magic and the sizes (filetransfer.ts:174, 179). The sender's rejections are `uuid mismatch`, `invalid handshake type` and `invalid protocol type`, without the uuids and the type (filetransfer.ts:290, 293, 332, 350). A control frame that `JSON.parse` refuses is rejected with the text `parse error`, not the engine's `SyntaxError` message. `send` from a status other than 0 is the result `started == false` of `FileSend.Send`, which stands for the rejection; its text `invalid status: ${status}` is left out (filetransfer.ts:253). The receiver's `invalid handshake type` and `invalid protocol type` (filetransfer.ts:462, 537) are only logged by the source, so the model ignores the frame without a text.
- JSON control frames: `JSON.stringify`/`JSON.parse` are replaced by a message datatype, with unparsable text as its own case. The exact JSON text is not modelled.
- Foreign encoders and libraries are bytes or parameters: `TextEncoder`/`TextDecoder` (strings are their UTF-8 bytes), `Blob`/`File`/`ArrayBuffer`, `json.loads` (a parameter of `ParseFilename`), `str()` of a variable's value (the `values` parameter of `RenderInto`), `os.path` (POSIX `basename` only) and the `re` engine, replaced by a hand-written scanner for the one pattern.
- File-system and network I/O. Not modelled:
  - the FileSystem Access API calls in fsapi-writer.ts (the picker's outcome is a parameter of `Open`, and the output stream is a log of writes);
  - `Downloader.download`, `content` and the hash and pgp validation;
  - `extractall` and `mkdir` in the extractors;
  - the file reads and writes of `Variables.sync` (the loaded document is a parameter);
  - `SourceKit.download_and_extract` and the `main` scripts, which only sequence these I/O steps.
- The ping network flow (`executePing`, `getPing`, `modifyStatus` in ping.ts) and the text-component library it calls: WebSocket I/O and clock readings.
- `MessageStream.write` and `WebSocketStream.write`, `close`, `state`, `closed` and `connect`: they only forward to the socket. Their buffer concatenation is `appendBuf`, which `WsStream.Buf.Append` models.
- WsStream.MessageStream.ReadInner: the subclass `decode` is a parameter required to be sound: it consumes no more than it is given, and something whenever it produces a message. Without that, the loop of the source would not terminate, so decoders that break it are not covered.
- Ping.Packet.WriteString and Ping.Packet.ReadString: the view is taken to start at byte 0 of its buffer. The source slices the underlying buffer at absolute offsets (ping.ts:335, 351), which differs only for a view at a non-zero offset.
- Floating point: `Math.ceil` of a quotient is integer ceiling division, `Math.log2` in `dump` is an integer bit length, and `>> 0`/`<< 0` are modelled where they matter (a zero chunk size gives the layout `(0, 0)`). Sizes at or above 2^31, where `>> 0` would wrap, are not modelled.
- Variables.SetPath and Variables.GetPath: nested dictionaries are values. `plain_set` mutating a dictionary shared between documents, which Python allows, is not modelled. Its walk is modelled as recursion over the key path, not as a loop.
- Template: `\s` in the placeholder pattern is taken to be ASCII white space and `\w` ASCII word characters. Python's `re` also accepts non-ASCII ones.
- Strings.TrimLeft, Strings.TrimRight and Strings.Lower: `str.strip` is modelled on the white space below 0x80, and `str.lower` on the letters `A`-`Z`. Python also strips non-ASCII white space and lower-cases non-ASCII letters (sometimes into two characters). For the one use of `Lower`, the comparison with `attachment` at sourcekits.py:167, no non-ASCII letter lower-cases into that word.
- SourceKits.ZipPlacement: an entry's directory flag is an independent field. In `zipfile` it is exactly "the name ends with `/`", which makes the prefix test of the source safe for zip archives (`InsideSlashDir`).
- FileSending.FileSend.OnMessage: in status 1 and 2 its contract gives only the resulting status set. The full effect of those branches is stated by `RecvHandshake` and `RecvMissingOrFinish`, which it calls.
- FileTransfer.BasicFileWriter.Write: uses the corrected length of the last chunk, `ChunkLength`. As written, filetransfer.ts:87-90 demands `size % chunkSize` bytes (`ChunkLengthAsWrittenRejectsFullLastChunk`).
- FileSending.FileSend.Send0: reports the corrected byte total, `SweepTotal`. As written, filetransfer.ts:363-367 counts the last chunk as `_lastChunkSize` bytes (`SweepTotalAsWrittenFallsShort`).
- FileOperate.BasicFileReader.Read: returns the corrected range of the last chunk. As written, fileoperate.ts:182 ends it `lastChunkSize` bytes after its start (`ReadRangeAsWrittenIsEmpty`).
- Ping.ReadStep: refuses a sixth VarInt byte. As written, ping.ts:315 reads it (`SixByteVarIntAsWritten`).
- Ping.Packet.ReadVarInt: throws "VarInt too big" past five bytes, the corrected budget of `ReadStep`. As written, ping.ts:315 accepts a sixth byte.
- Ping.Packet.Parse: its length prefix is read with the corrected five-byte budget of `ReadVarInt`. As written, ping.ts:315 accepts a sixth byte.
- Ping.DecodePacket: parses with the corrected `Parse`, so a six-byte length prefix is an error. As written, ping.ts:315 accepts it.
- WsStream.MessageStream.Receive: appends with the corrected `Buf.Append`, which advances `end`. As written, wsstream.ts:351 leaves the new bytes unreadable (`AppendAsWrittenHidesData`).
- WsStream.MessageStream.Feed: its drained messages and kept bytes rest on the corrected append of `Receive`.
- WsStream.MessageStream.ReadInner: the reads it awaits go through the corrected append of `Receive`.
- WsStream.MessageStream.Read: `ReadSpec` rests on the corrected append of `Receive`.
- SourceKits.TarPlacement: decides the single root with the corrected `FindRoot`. As written, sourcekits.py:237 takes a sibling such as `ab` to lie inside a directory `a` (`PrefixAcceptsSibling`).
- Template.Template.RenderInto: `values` cannot raise. A lookup `variables[var]` that raises (`AttributeError` when a path runs through a non-object, see `Variables.VariableStore.GetItem`) is not propagated.
- Variables.Json: JSON numbers are integers only. Floating-point numbers in a variables document are not modelled.
- Context.WebRtcContext.Register: `onConstruct` and `onDestruct` are taken never to throw. If one throws at context.ts:79 or 81, the new entry is already stored and the cached chain already dropped, and the exception reaches the caller.
- Context.WebRtcContext.Unregister: `onDestruct` is taken never to throw. If it throws at context.ts:92, the entry is already deleted and the exception reaches the caller.
- Context.WebRtcContext.Destroy: `onDestruct` is taken never to throw. If one throws at context.ts:65, the later elements are not called and the connection and `is_caller` stay set (context.ts:67-68 are not reached).
- Context.WebRtcContext.Create: `onConstruct` and `onDestruct` are taken never to throw. A throw inside the first `destroy` stops `create` before `new RTCPeerConnection` (context.ts:53-54). A throw at context.ts:57 leaves the new connection installed with only the earlier elements constructed.
- Priority.InsertPosition: priorities are integers. The source's `number` also admits fractions, which order as integers do, and `NaN`, for which every comparison is false; a `NaN` priority is not modelled. The same holds for `WebRtcSvc` through `PriorityHandleManager`.
- Context.Compare: priorities are integers. A `NaN` priority makes the comparator at context.ts:27-31 return `NaN`, which is not a consistent comparator for `sort`. It is not modelled.

## Findings

| source | as written | input that shows it | evidently intended | confidence | as-written member | corrected member |
|---|---|---|---|---|---|---|
| webrtc-transfer/src/filetransfer.ts:87-90 | `BasicFileWriter.write` demands that the last chunk have `size % chunkSize` bytes | a 32-byte file in 16-byte chunks: the sender's last chunk has 16 bytes, but the writer demands 0 and rejects it | the last chunk's real length: `chunkSize` when the size is a multiple of it | not executed | FileTransfer.ChunkLengthAsWrittenRejectsFullLastChunk | FileTransfer.ChunkOfHasChunkLength |
| webrtc-transfer/src/fileoperate.ts:267-270 | the same last-chunk rule in the in-memory `BasicFileWriter.write` | a 32-byte file in 16-byte chunks: chunk 1 (16 bytes) is rejected | the last chunk's real length | not executed | FileTransfer.ChunkLengthAsWrittenRejectsFullLastChunk | FileOperate.BasicFileWriter.Write |
| webrtc-transfer/src/fsapi-writer.ts:74-77 | the same last-chunk rule in `FileSystemAPIWriter.write` | a 32-byte file in 16-byte chunks: chunk 1 (16 bytes) throws "Chunk size mismatch" | the last chunk's real length | not executed | FileTransfer.ChunkLengthAsWrittenRejectsFullLastChunk | FsApiWriter.FileSystemAPIWriter.Write |
| webrtc-transfer/src/fileoperate.ts:182 | `read` ends the last chunk `lastChunkSize` bytes after its start | a 32-byte file in 16-byte chunks: `read(1)` is the empty range 16..16 | the last chunk ends at the file's end | not executed | FileOperate.ReadRangeAsWrittenIsEmpty | FileOperate.ReadRangeIsChunk |
| webrtc-transfer/src/filetransfer.ts:363-368 | the byte total of a sweep that includes the last chunk counts it as `lastChunkSize` bytes | a 32-byte file in 16-byte chunks, sweep `[0, 1]`: the total is 16, but 32 bytes are sent | the sum of the sent chunks' lengths | not executed | FileSending.SweepTotalAsWrittenFallsShort | FileSending.SweepTotalIsBytesSent |
| webrtc-transfer/src/filetransfer.ts:104 | `flush` rejects "missing chunk" when `some` slot is `undefined`, but `some` skips the holes of the sparse array `open` allocates | a 2-chunk file with only chunk 0 written: `flush` resolves and downloads chunk 0 followed by the text "undefined" | reject with "missing chunk" while a slot is empty | not executed | FileTransfer.BasicFileWriter.FlushAsWritten | FileTransfer.BasicFileWriter.Flush |
| webrtc-transfer/src/fileoperate.ts:291 | `close` reports `every(chunk !== undefined)`, but `every` skips the holes of the sparse array `open` allocates | a 2-chunk file with only chunk 0 written: `close` resolves true | true exactly when every chunk is written, as the interface documents (fileoperate.ts:94) | not executed | FileOperate.BasicFileWriter.CloseAsWritten | FileOperate.BasicFileWriter.Close |
| webrtc-transfer/src/fsapi-writer.ts:104 | `flush` reports `some(chunk => !(chunk > 0))`, which is true when some chunk is missing | all chunks written: `flush` returns false; one chunk missing: it returns true | true exactly when every chunk is written, as the writer interface documents for `close` (fileoperate.ts:94) and as `check` reports | not executed | FsApiWriter.SomeUnmarkedIsInverted | FsApiWriter.AllMarkedIffNoGaps |
| html/wsstream.ts:351 | `appendBuf` copies the data at `end` but never advances `end` | a buffer holding `[7]` with capacity 4, append `[1, 2, 3]`: the readable bytes stay `[7]` | `end` advances by the length of the data | not executed | WsStream.AppendAsWrittenHidesData | WsStream.AppendExtendsLive |
| html/wsstream.ts:341 | the grown capacity is `ceil(capacity * scale)`, whatever the data's length | a full 4-byte buffer, append 5 bytes: the new capacity of 8 cannot hold 9 bytes and `set` throws a `RangeError` | grow to at least the live bytes plus the data | not executed | WsStream.AppendAsWrittenExamples | WsStream.GrownToFit |
| web-mcping/src/ping.ts:315 | `readVarInt` stops only when `position > 35`, so it reads a sixth byte and shifts that byte's group by 35, which JavaScript reduces to 3 | bytes `80 80 80 80 80 01` decode to 8 | refuse a VarInt longer than five bytes, as "VarInt too big" | not executed | Ping.SixByteVarIntAsWritten | Ping.VarIntRoundTrip |
| web-mcping/src/ping.ts:347 | `readString` accepts a negative length: `readable < length` is false | a length VarInt `FF FF FF FF 0F` (-1): an empty string is returned and the read cursor moves back one byte, into the length it has just read | refuse a negative length and restore the cursor | not executed | Ping.NegativeStringLengthAsWritten | Ping.StringRoundTrip |
| tools/sourcekits.py:237 | the single-root test is `member.path.startswith(folder)` on a tar directory name without a trailing `/` | a directory member `a` (`tarfile` drops the trailing `/`) followed by a file `ab`: `ab` counts as inside `a`, so the archive is taken to have the single root `a` | a member lies inside the root when its path equals it or continues with `/` | not executed | SourceKits.PrefixAcceptsSibling | SourceKits.FindRoot |
