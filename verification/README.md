# Verification model of Teldrive's streaming and bookkeeping core

Teldrive stores files as messages in Telegram channels. This project models, in Dafny, the code that turns a range
request into bytes, and the state machines around it, and proves what that code is for. It has no dependency but Dafny
4.11: `dafny verify dfyconfig.toml` checks all of it.

## What is modelled

**The read path.** A request for `start..end` goes through four layers. `Linear` stitches the parts of a file together;
`Decryption` decrypts a part from any offset; `Readers` fetches a part in aligned chunks, one after the other or with a
window of concurrent requests; `Pipeline` is that window as a step relation over producer, workers, channels, the reading
goroutine and cancellation. Every reader has a ghost field `owed`, the bytes it still has to deliver, and every `Read`
says: what was owed is what it returns followed by what it then owes, and end of file is only reported when nothing is
owed. A reader is *reliable* when none of its requests fails. The theorem of the whole path is
`Linear.LinearReader.ReadRange`: if no request fails and encrypted parts have their header, the bytes returned are
`file[start..end]` and then end of file, for plain and encrypted files, sequential and parallel part readers, and buffers
of arbitrary sizes; without these conditions the bytes returned are still a prefix of the range, and end of file still
means that the range is complete. If the record of a file claims more than its parts hold, the read ends in the
parts-mismatch error after the bytes that there are.

**The cipher** (`Nonce`, `Cipher`, `Encryption`, `Decryption`, `Streams`). `Cipher.Decode` says what reading an arbitrary
ciphertext gives, damaged or not; encryption, decryption, seeking and damage are stated against it. The nonce is an array
of bytes updated in place; read as a number it counts modulo 2^192. `secretbox.Seal` and `secretbox.Open` are a pair of
functions of which only this is used: opening undoes sealing, and a box is 16 bytes longer than its message. A stand-in
shows that this can be met (`Cipher.TaggedBoxIsLawful`), and so can the hypotheses about damage and broken connections: any
set of blocks can be damaged (`Cipher.AnyDamageIsPossible`), and no file encrypted with it can be torn
(`Decryption.TaggedBoxCannotBeTorn`).

**The location protocol** (`LocationProtocol`), **the cache of live clients** (`ClientCache`): steps of any number of
callers, sources, goroutines and clean-ups, interleaved in any order; the theorems are about all runs.

**Uploads** (`BotRotation`): the round-robin cursor over bots, the cycles of attempts and waits. The outcome of an attempt
is arbitrary; the clock may advance whenever it is read.

**The folder tree** (`FolderTree`, `FolderSizes`, `FolderPaths`, `FolderCreation`, `FolderDeletion`): the table is a map
from ids to rows; a recursive query is evaluated round by round and proved equal to the paths of the tree. An `UPDATE` or
`DELETE` statement is a function from table to table, `create_directories` a method with its loop.

**Retry and recovery** (`Retry`) and **the request tracker** (`ScanTracker`).

## Assumptions taken from the system

- All parts of a file but the last have the size on record, and the last is not larger (`Source.Recorded`). The sizes that
  the server takes from Telegram give this for parts of equal size (`Linear.UploadIsRecorded`).
- A file has at least one part on record, and the size of the first is positive. Without the one, opening a reader indexes
  an empty list (internal/reader/reader.go:63-66), without the other it divides by zero (lines 35-37 and 71).
- An encrypted part on record is at least as long as a header (`Source.Readable`).
- A chunk that a request returns is what the part holds at that place. Failing requests and timeouts are covered for both
  readers; chunks that come back short are covered for the parallel reader.
- No error of a request is the bare end of file. The sequential reader passes an error on as it is, so that such an error
  would read as the end of the range (`Readers.FetchChunk`); the parallel reader wraps it (`Pipeline.Plausible`).
- The recorded size of an encrypted part is that of the stored part (`Linear.Source.Readable`, `OpenRangeSeek.Sized`).
- If a connection breaks inside a block, the bytes that did arrive do not authenticate as a shorter block
  (`Decryption.Untearable`); this is only needed when requests may fail.
- The functions over the folder tree assume a forest; paths assume one root per user, distinct sibling names and names
  without a slash; bulk deletion assumes that a row belongs to the owner of its folder.
- During an upload nobody else moves the cursor of its user or blocks bots.

## Where the code does less, or something else, than one might expect

- A seek succeeds for offsets below the size of the data, and also at the very end of the data if that lies inside a
  block, but not at the end if the data fill their last block (`Decryption.SeekFinds`, `Decrypter.RangeSeek`;
  `Streams.SeekToEndWitness` has a file of each kind).
- Without a limit a part is not opened to its end but at most at its first byte, so that no seek without a limit succeeds
  on a part (`OpenRangeSeek.Takes`); the code always sets one.
- The path computed for a root carries the root's own name, so that looking it up does not find the root, unless the root
  has no name; nor is a nameless folder directly under a root found (`FolderPaths.PathRoundTrip` has the exact condition,
  `FolderPaths.NamedRootIsNotFound` an example).
- A flood wait of zero resets the running minimum of a cycle (`BotRotation.MinWaitIsMinimum` says what the minimum is then,
  `BotRotation.ZeroWaitResets` gives an example).
- An upload goes through the list that the worker already has for its user, with as many turns as it has tokens itself. A
  cycle that nothing ends reaches every free bot within as many places of the cursor as there are tokens; never all of
  them when more bots are free than tokens; and, as long as no bot is listed twice and no block runs out on the way, all of
  them exactly when not more are free than tokens (`BotRotation.Reaches`, in `TryAll` and `Upload`).
  `BotRotation.LongerListMissesABot` is an upload that misses a free bot.
- A -503 Timeout of a request that may write is nevertheless retried if "Timeout" is configured, or if some wrapper puts
  an internal error such as "connection dead" in front of it, and only then (`Retry.WritesAreNotRetried`;
  `Retry.WrappedTimeoutIsRetried` is such an error).
- A reader of a plain file whose record claims too much says so once for every missing part and then, if it is read on,
  reports a bare end of file (`Linear.LinearReader.Read`, `Linear.MismatchThenEof`). Up to the first error an end of file
  means that the range is complete; after it, that all recorded bytes have come (`Linear.LinearReader.ReadOn`).
- A seek opens the file again and leaves the stream before it as it is; closing cancels the last one only
  (`Decryption.Decrypter.Reopen`, `Decryption.Decrypter.Close`).
- create_directories takes whatever row has the next name for the folder it needs. If that row is a file, it goes on behind
  it and returns a row that no lookup finds; with unique names, this happens exactly then
  (`FolderCreation.CreateDirectories` with the predicate `Unobstructed`; `FolderCreation.FileInTheWay` is an example).
- The gate of the location protocol belongs to one source: two sources of the same part may fetch its location at the same
  time (`LocationProtocol.SourcesDoNotShareTheGate`).

## Model

| member | source | states |
|---|---|---|
| `Nonce.Carry` | internal/crypt/cipher.go:128-138 | from digit i on, the carry chain: 255s turn to 0 up to the first other digit, which grows by one; lower digits stay |
| `Nonce.Increment` | internal/crypt/cipher.go:140-142 | the array afterwards holds the digits of its number plus one, modulo 256^length (2^192 for a nonce) |
| `Nonce.Add` | internal/crypt/cipher.go:144-157 | the array afterwards holds the digits of its number plus a 64-bit x, modulo 256^length, carry beyond byte 8 included |
| `Nonce.SuccessorIsPlusOne` | internal/crypt/cipher.go:128-138 | the carry chain, defined digit by digit, is addition of one to the little-endian number |
| `Nonce.IncrementsIsAdd` | internal/crypt/cipher.go:140-157 | k increments in a row are one addition of k, modulo 256^length |
| `Nonce.AddToDigits` | internal/crypt/cipher.go:144-157 | adding to an already truncated nonce and truncating again loses nothing |
| `Cipher.NoncesDiffer` | internal/crypt/cipher.go:128-157 | no nonce serves two blocks of a file: it takes 256^length blocks, 2^192 for a nonce of 24 bytes, until one returns |
| `Cipher.EncodeLength` | internal/crypt/cipher.go:195-218 | the header and the sealed blocks of a plaintext have EncryptedSize bytes |
| `Cipher.RoundTrip` | internal/crypt/cipher.go:195-354 | decoding the encoded blocks, under the same nonces, gives the plaintext and a clean end |
| `Cipher.SizesAreInverse` | internal/crypt/cipher.go:524-548 | EncryptedSize and DecryptedSize undo each other; the latter fails exactly below the header size and for a trailing fragment of 1 to 16 bytes |
| `Cipher.DecodeSize` | internal/crypt/cipher.go:325-354 | how many bytes any ciphertext decodes to, and whether it ends cleanly or in the bad-header error |
| `Cipher.DecodeDrop` | internal/crypt/cipher.go:412-453 | decoding from block j on, under the nonce of block j, is the rest of decoding everything, with the same end |
| `Cipher.DecodeTake` | internal/crypt/cipher.go:384-410 | decoding whole blocks up to j is the beginning of decoding everything |
| `Cipher.UnderlyingIsTight` | internal/crypt/cipher.go:384-410 | the ciphertext range of a plaintext range is whole blocks, starts with the block of the offset, covers the limit and not one block more, and fits 64 bits |
| `Cipher.SeekIsSlice` | internal/crypt/cipher.go:384-454 | on every ciphertext, decoding only the requested blocks, dropping `discard` bytes and limiting gives the slice of the whole decoding; the end is that of the whole, or end of file |
| `Cipher.SeekPastEnd` | internal/crypt/cipher.go:441-448 | an offset beyond the data finds no data, or less than it has to discard |
| `Cipher.DecodeAt` | internal/crypt/cipher.go:325-354 | each data byte depends on its own block and nonce only |
| `Cipher.FaultIsolation` | internal/crypt/cipher.go:340-349 | replacing any set of blocks by bytes that do not authenticate zeroes exactly their plaintext positions, and keeps all other bytes, the length and the clean end |
| `Encryption.CopyInto` | internal/crypt/cipher.go:189-191 | the front of the array is the string, the rest stays |
| `Encryption.Encrypter.constructor` | internal/crypt/cipher.go:171-193 | a new encrypter owes the header (magic, nonce) and the encoded source |
| `Encryption.Encrypter.Seal` | internal/crypt/cipher.go:210-213 | the buffer holds the sealed block under the nonce of its index, and the nonce has moved to the next index |
| `Encryption.Encrypter.Refill` | internal/crypt/cipher.go:202-214 | the next block is sealed without changing what is owed, or the encrypter finishes with the end of its source and owes nothing |
| `Encryption.Encrypter.Read` | internal/crypt/cipher.go:195-218 | what was owed is what is returned followed by what is owed; an end is the end of the source, and then nothing is owed |
| `Encryption.Encrypter.Finish` | internal/crypt/cipher.go:220-230 | the error is kept and the buffers are given up |
| `Encryption.Encrypter.ReadAll` | internal/crypt/cipher.go:195-218 | whatever the buffer sizes, reading to the end gives exactly what was owed |
| `Encryption.EncodeStep` | internal/crypt/cipher.go:204-213 | one filled read buffer is one sealed block in front of the encoding of the rest |
| `Decryption.OpenRangeSeek.Open` | internal/reader/reader.go:178-193 | opening a part at an offset with a limit gives a reader that owes exactly that window of the part; without a limit it owes one byte at offset 0 and nothing behind it |
| `Decryption.Decrypter.constructor` | internal/crypt/cipher.go:255-283 | a decrypter behind the header owes what the rest of the stream decodes to |
| `Decryption.Decrypter.New` | internal/crypt/cipher.go:255-283 | succeeds exactly with a whole header and the right magic, fails with too-short or bad-magic otherwise, and owes what the file decodes to |
| `Decryption.Decrypter.NewSeek` | internal/crypt/cipher.go:285-323 | opening at an offset with a limit succeeds exactly for files with a header and offsets 0 or seekable, on a part only with a limit, and owes the slice of the content, limited; a file that can be read fails to open with too-short or bad-magic for its header, or as its seek does |
| `Decryption.Decrypter.OpenStart` | internal/crypt/cipher.go:290-313 | the first opening succeeds exactly with a header (and, for a part read from its start, a limit), and then owes what the limit lets through of the content |
| `Decryption.Decrypter.FillBuffer` | internal/crypt/cipher.go:325-354 | the buffer and what the blocks to come decode to are together what was to come before; the end is reported as the decoding says, read errors as they are |
| `Decryption.Decrypter.Install` | internal/crypt/cipher.go:340-352 | the buffer holds the opened block, or zeros of the right length, and the nonce has moved on |
| `Decryption.Decrypter.Read` | internal/crypt/cipher.go:356-382 | what was owed is what is returned followed by what is owed; end of file and bad header only when nothing is owed; the error that ends the stream is the one the ciphertext has |
| `Decryption.Decrypter.CopyOut` | internal/crypt/cipher.go:369-381 | buffered bytes are handed out up to the limit, and at the limit the stream ends with nothing owed |
| `Decryption.Decrypter.Finish` | internal/crypt/cipher.go:460-470 | the error is kept and the buffers are given up |
| `Decryption.Decrypter.FinishWith` | internal/crypt/cipher.go:460-470 | the first error wins |
| `Decryption.Decrypter.UnFinish` | internal/crypt/cipher.go:472-481 | no error, new empty buffers |
| `Decryption.Decrypter.Close` | internal/crypt/cipher.go:483-500 | from then on the error is that it is closed, whatever it was before; nothing is handed out, and its source is closed: no goroutine goes on fetching for it |
| `Decryption.Decrypter.RangeSeek` | internal/crypt/cipher.go:412-454 | also after end of file: exactly for seekable offsets it succeeds, on a part only with a limit, and then the decrypter owes the slice of the content from the offset, limited; no other state lets it succeed; in a file that can be read it fails with end of file, bad-header or bad-seek, depending on what is left at the offset |
| `Decryption.Decrypter.Reopen` | internal/crypt/cipher.go:429-453 | the part of a seek behind the checks: same statement |
| `Decryption.Decrypter.SetNonce` | internal/crypt/cipher.go:431-432 | the nonce is the one the encrypter used for that block |
| `Decryption.Decrypter.Land` | internal/crypt/cipher.go:446-451 | dropping the bytes before the offset and setting the limit leaves the limited rest owed |
| `Decryption.Decrypter.Fail` | internal/crypt/cipher.go:435-448 | a failed seek leaves the decrypter finished with that error |
| `Decryption.Decrypter.SetLimit` | internal/crypt/cipher.go:319-321 | a limit set before the first read limits what is owed |
| `Decryption.Decrypter.ReadAll` | internal/crypt/cipher.go:356-382 | whatever the buffer sizes, reading to end of file gives exactly what was owed, and the final error is the one the ciphertext ends in, or end of file at the limit |
| `Decryption.SeekFinds` | internal/crypt/cipher.go:412-454 | what the window that a seek opens decodes to, and that a seek succeeds exactly below the end of the data or at an end inside a block |
| `Decryption.OpenedHeader` | internal/crypt/cipher.go:290-310 | the first opening of a file, cut or not, shows the header of the whole file and the beginning of its content |
| `Decryption.DecodeRound` | internal/crypt/cipher.go:325-354 | a filled read buffer is one round of the decoding: end, truncated header, or one block |
| `Decryption.TornRound` | internal/crypt/cipher.go:340-344 | a block torn by a broken connection does not authenticate, so that the read error surfaces instead of zeros |
| `Decryption.UntearableWindow` | internal/crypt/cipher.go:429-434 | what holds of torn blocks of a file holds of every window that a seek opens |
| `Streams.EncryptedFile` | internal/crypt/cipher.go:195-283 | an encrypted file has the magic and its nonce, decodes to its plaintext with a clean end, and its size is announced correctly by both size functions |
| `Streams.EncryptThenDecrypt` | internal/crypt/cipher.go:195-382 | encrypting and decrypting through both readers, with arbitrary pieces and buffers on both sides, gives the plaintext, of the announced sizes |
| `Streams.ReadTwice` | internal/crypt/cipher.go:285-454 | two seeks on one decrypter, the second after the first read ran into its end, each give their slice of the content |
| `Streams.ReadDamaged` | internal/crypt/cipher.go:325-454 | a seeked, limited read of a damaged file gives the slice of the plaintext with exactly the damaged blocks blank |
| `Streams.SeekToEnd` | internal/crypt/cipher.go:412-454 | seeking to the very end of an encrypted file succeeds if and only if its data do not fill their last block |
| `Streams.SeekToEndWitness` | internal/crypt/cipher.go:412-454 | it fails for one full block and succeeds for one byte |
| `ChunkPlan.CalculateChunkSize` | internal/tgc/helpers.go:266-273 | a power of two from 1 KiB to 1 MiB that divides 1 MiB, at most end - start unless 1 KiB, and less than half of it too small unless 1 MiB |
| `ChunkPlan.PlanShape` | internal/reader/tg_multi_reader.go:168-180 | the number of requests is the number of chunks that the range touches; the last request starts at the chunk of the last byte |
| `ChunkPlan.PiecesTile` | internal/reader/tg_multi_reader.go:247-257 | the cut requests start at start, follow each other without gap or overlap, are not empty, and end after end |
| `ChunkPlan.RequestsAreSmall` | internal/reader/tg_multi_reader.go:164-180 | no request crosses a 1 MiB boundary, and ranges below 1 MiB take at most three requests |
| `ChunkPlan.CutIsPiece` | internal/reader/tg_multi_reader.go:247-257 | cutting what the source holds, or a prefix that is long enough, gives the piece of the range |
| `ChunkPlan.FaithfulIsLongEnough` | internal/reader/tg_multi_reader.go:254-258 | what the source holds is never too short for its cut, and full length but for the last chunk |
| `ChunkPlan.BoundaryStep` | internal/reader/tg_multi_reader.go:270-290 | with each piece the delivered prefix grows by exactly that piece |
| `Pipeline.StepKeepsInv` | internal/reader/tg_multi_reader.go:195-291 | every step of producer, workers, channels, reader and cancellation keeps the invariant of the window |
| `Pipeline.BehaviorInv` | internal/reader/tg_multi_reader.go:195-291 | every state of every run satisfies the invariant |
| `Pipeline.ReadsAreSafe` | internal/reader/tg_multi_reader.go:195-291 | in every interleaving the caller has read a prefix of the range, end of file is reported only after all of it, abandonment never, and an error reported is the cause of cancellation |
| `Pipeline.TakesInOrder` | internal/reader/tg_multi_reader.go:270-281 | at loop index p the producer takes the result of chunk p from slot p modulo window, and forwards exactly that piece or cancels |
| `Pipeline.ResourcesAreBounded` | internal/reader/tg_multi_reader.go:226-291 | a worker finds its one-slot channel empty, nothing is sent after the close, and launched chunks exceed received ones by at most window plus buffers |
| `Pipeline.StepDecreases` | internal/reader/tg_multi_reader.go:229-291 | every step but the return of an error lowers a bounded measure, so there is no livelock |
| `Pipeline.NeverStuck` | internal/reader/tg_multi_reader.go:229-291 | while bytes are missing and nothing is cancelled, a step that makes progress is possible |
| `Pipeline.ReadsAhead` | internal/reader/tg_multi_reader.go:226-291 | when producer and workers of an uncancelled run can do no more on their own, the next unread pieces lie in the buffers, as many as these hold or as there are |
| `Pipeline.ReadGoesOn` | internal/reader/tg_multi_reader.go:195-224 | a Read call can always go on, in its select once there is a buffer, a cause or a closed channel; when everything has been read it returns end of file |
| `Pipeline.CancelledMoves` | internal/reader/tg_multi_reader.go:226-291 | once cancelled, the producer or a worker can take a step until all of them have returned, whether or not anybody reads |
| `Pipeline.OthersAreBounded` | internal/reader/tg_multi_reader.go:226-291 | in every run, cancelled or not and whatever the reading goroutine does, producer and workers take at most a fixed number of steps |
| `Pipeline.CauseIsGenuine` | internal/reader/tg_multi_reader.go:226-290 | the cause of a cancellation is the reason somebody cancelled for, or the error with which a worker of the run failed: that of its request, or an unexpected end if its chunk was too short |
| `Pipeline.CauseStays` | internal/reader/tg_multi_reader.go:170-172 | the first cause stays |
| `Pipeline.FullAnswerSucceeds` | internal/reader/tg_multi_reader.go:242-263 | the complete answer of the source becomes exactly the piece of its chunk |
| `Pipeline.CleanRunsComplete` | internal/reader/tg_multi_reader.go:195-291 | a run in which fetches succeed and the reader keeps reading is finite, and when it stops the whole range and end of file have been delivered |
| `Pipeline.LimitReachedIsReported` | internal/reader/tg_multi_reader.go:215-221 | the read that uses up the range reports end of file |
| `Readers.TgReader.constructor` | internal/reader/tg_reader.go:22-46 | a new sequential reader owes the range, also an empty one |
| `Readers.TgReader.Next` | internal/reader/tg_reader.go:76-97 | the next chunk is fetched, with a request inside one window of 1 MiB, and cut so that what is owed stays the same, and is never empty |
| `Readers.TgReader.Read` | internal/reader/tg_reader.go:48-70 | what was owed is what is returned followed by what is owed; end of file only when nothing is owed; other errors only if requests fail, and with no data |
| `Readers.CutsAgree` | internal/reader/tg_reader.go:85-91 | the three ways in which the sequential reader cuts a chunk all give the piece of the plan |
| `Readers.TgMultiReader.constructor` | internal/reader/tg_multi_reader.go:157-188 | a new parallel reader owes the range |
| `Readers.TgMultiReader.Close` | internal/reader/tg_multi_reader.go:190-193 | closing cancels the context and changes nothing that is owed |
| `Readers.TgMultiReader.Read` | internal/reader/tg_multi_reader.go:195-224 | the same contract as the sequential reader, whatever the scheduler does before and during the call |
| `Readers.Await` | internal/reader/tg_multi_reader.go:200-213 | waiting ends with a non-empty buffer, or with the cause of a cancellation, and delivers nothing itself |
| `Readers.Schedule` | internal/reader/tg_multi_reader.go:229-311 | every choice among the steps of the goroutines and the waiting read is one the pipeline allows |
| `Readers.MoveOthers` | internal/reader/tg_multi_reader.go:226-311 | every choice among the steps that the other goroutines can take is one the pipeline allows |
| `Readers.Background` | internal/reader/tg_multi_reader.go:226-311 | however far the other goroutines go on between two reads, what has been delivered and the buffer at hand stay |
| `Readers.ReadFill` | internal/crypt/cipher.go:49-56 | the buffer is filled as far as the reader goes: what was owed is the filled part followed by what is owed |
| `Readers.Reader.ReadAll` | internal/reader/tg_multi_reader.go:195-224 | reading to end of file with arbitrary buffer sizes gives exactly what was owed |
| `Readers.ParallelRefinesSequential` | internal/reader/tg_multi_reader.go:157-291 | over the same part and range, parallel and sequential reader deliver the same bytes, namely the range, whatever the interleaving and the buffers |
| `Linear.CalculatePartByteRanges` | internal/reader/reader.go:35-50 | the ranges are those of the consecutive parts from the part of start to the part of end |
| `Linear.PartOfFile` | internal/reader/reader.go:35-50 | where part p lies in a file of equal parts |
| `Linear.RangeIsNextStretch` | internal/reader/reader.go:39-48 | a range lies inside its part, is not empty, and selects the next stretch of the file |
| `Linear.RangeInPart` | internal/reader/reader.go:39-48 | the same for the range of any index of the plan, with its part number |
| `Linear.UploadIsRecorded` | pkg/services/common.go:36-53 | a file of equal parts and a smaller last one, recorded with the sizes of its documents and what they decrypt to, satisfies the assumptions of the reader for every range of its content |
| `Linear.NothingMore` | internal/reader/reader.go:113-120 | behind the last range, or the last recorded part, nothing of the file is left; the plan leaves the recorded parts exactly when the record claims too much |
| `Linear.StartBeyond` | internal/reader/reader.go:143-146 | a range that starts behind the recorded parts starts behind the end of the file |
| `Linear.PartReader.Read` | internal/reader/reader.go:89-90 | plain or decrypted, a part reader keeps the contract of a reader |
| `Linear.LinearReader.constructor` | internal/reader/reader.go:66-77 | the state before the first read |
| `Linear.LinearReader.New` | internal/reader/reader.go:52-82 | a new reader owes start..end of the file; it fails with parts-mismatch when the first part is not on record, and for a working source only then |
| `Linear.LinearReader.Read` | internal/reader/reader.go:84-101 | what was owed is what is returned followed by what is owed, also after errors; end of file only when nothing is owed and, up to the first error, nothing is missing; a working source reports nothing but end of file, or parts-mismatch after all that there is; after a failed opening no bytes come, and the error is parts-mismatch for every range left and then end of file (plain), or file-closed for good (encrypted) |
| `Linear.LinearReader.ReadPart` | internal/reader/reader.go:89-90 | reading from the current part only |
| `Linear.LinearReader.MoveToNextPart` | internal/reader/reader.go:113-120 | at the end of a part the next one is opened without changing what is owed; only behind the last recorded part does a plain one fail to open, and the ranges are run past only when reading on after that; the reader before is cancelled |
| `Linear.LinearReader.ReadAll` | internal/reader/reader.go:84-101 | reading to the first error gives a prefix of what was owed, and all of it at end of file |
| `Linear.LinearReader.ReadOn` | internal/reader/reader.go:84-120 | reading past any number of errors still gives a prefix of what was owed, all of it once an end of file was reported; for a record that claims too much the parts-mismatch error comes before any end of file |
| `Linear.MismatchThenEof` | internal/reader/reader.go:84-120 | with one recorded part of two the first error is parts-mismatch, the second end of file |
| `Linear.LinearReader.ReadRange` | internal/reader/reader.go:35-205 | end to end: exactly the bytes start..end, then end of file; in all other cases a prefix, or all recorded bytes and then parts-mismatch |
| `Linear.LinearReader.GetPartReader` | internal/reader/reader.go:122-205 | the reader of a range owes exactly what the range selects of its part; a part not on record is an error, never an index out of bounds |
| `Linear.LinearReader.OpenEncrypted` | internal/reader/reader.go:164-193 | an encrypted part is opened so that it owes the range of its decrypted content; if no request fails it only fails for a part without the magic, and never with parts-mismatch |
| `Linear.LinearReader.OpenPlain` | internal/reader/reader.go:195-200 | a plain part is opened so that it owes the range; a bad thread count is an error |
| `LocationProtocol.ActAtGate` | internal/reader/tg_multi_reader.go:89-95 | only entering and leaving change the gate, and only callers with the cache enabled pass it |
| `LocationProtocol.ActKeepsInv` | internal/reader/tg_multi_reader.go:69-139 | every action keeps the bounds on reads and fetches of its request, and the provenance of its second location |
| `LocationProtocol.StepKeepsInv` | internal/reader/tg_multi_reader.go:69-139 | every step of any caller, the clock or an eviction keeps the invariant of the protocol |
| `LocationProtocol.BehaviorInv` | internal/reader/tg_multi_reader.go:69-139 | every state of every run satisfies the invariant |
| `LocationProtocol.FetchesExclude` | internal/reader/tg_multi_reader.go:89-120 | with the cache enabled, at most one caller of a source is behind the gate, and the gate is held by exactly that caller; finished requests hold nothing |
| `LocationProtocol.LocationsAreGenuine` | internal/reader/tg_multi_reader.go:113-120 | every location that anybody knows for a part was fetched in the run for that part, by the client it names |
| `LocationProtocol.Outcome` | internal/reader/tg_multi_reader.go:123-139 | a request succeeds exactly when one of its reads gives the chunk; it fails only if it was cancelled, its metadata request or its read failed, or a reference expired that was not a cached one read for the first time |
| `LocationProtocol.ExpiredIsRefreshed` | internal/reader/tg_multi_reader.go:130-136 | a request that reads an expired cached reference, is not cancelled and gets its metadata, reads a second time before it ends |
| `LocationProtocol.RefreshIsShared` | internal/reader/tg_multi_reader.go:104-113 | behind the gate a request with an expired location sends a metadata request if and only if its source has not brought another location since the request began; otherwise it uses that one; before it sends one, the expired entry leaves the cache |
| `LocationProtocol.LastIsLatest` | internal/reader/tg_multi_reader.go:113-119 | what a source remembers is the last location that it fetched, with the time of that reply |
| `LocationProtocol.CancelledFetchesNothing` | internal/reader/tg_multi_reader.go:70-99 | a cancelled request sends no further metadata request |
| `LocationProtocol.SecondReadIsFresh` | internal/reader/tg_multi_reader.go:104-139 | at most two reads and one metadata fetch per chunk request (one read without the cache); the second read uses a location that the own client fetched after the request began |
| `LocationProtocol.ActionsAreBounded` | internal/reader/tg_multi_reader.go:69-139 | each action uses up one of a bounded number of actions of its request |
| `LocationProtocol.GateIsBrief` | internal/reader/tg_multi_reader.go:89-120 | each action of a caller that stays behind the gate brings it closer to leaving |
| `LocationProtocol.GateIsFreed` | internal/reader/tg_multi_reader.go:89-120 | a caller behind the gate, cancelled or not, can always act, and stays for at most three actions of its own; a request takes at most fifteen in all |
| `LocationProtocol.NeverStuck` | internal/reader/tg_multi_reader.go:69-139 | an unfinished request can act, or waits for a gate whose holder can |
| `LocationProtocol.OneFetch` | internal/reader/tg_multi_reader.go:84-120 | if the cache keeps the entry, no fetch fails and no reference expires, any number of requests of a source cause at most one metadata fetch |
| `LocationProtocol.OneRequestFetches` | internal/reader/tg_multi_reader.go:84-120 | then at most one of the requests has sent a metadata request, and only one |
| `LocationProtocol.SourcesDoNotShareTheGate` | internal/reader/tg_multi_reader.go:39-42 | a run in which two sources of the same part fetch its location at the same time |
| `ClientCache.StepKeepsInv` | internal/tgc/clientcache.go:60-225 | every critical section and every action outside the lock, a reap with a clock reading from before the lock included, keeps the invariant of the cache |
| `ClientCache.BehaviorInv` | internal/tgc/clientcache.go:60-225 | every state of every run satisfies the invariant |
| `ClientCache.NothingLeaks` | internal/tgc/clientcache.go:182-225 | a client is at all times exactly one of: entry of its key, taken out by somebody who can cancel it now, cancelled |
| `ClientCache.WasTaken` | internal/tgc/clientcache.go:88-225 | a client that is no longer listed was removed by a step of the run: a clean-up for the recorded reason, the shutdown, a reap that found it idle beyond the limit, or the end of its connection |
| `ClientCache.WasPrompted` | internal/tgc/clientcache.go:92-155 | whoever cleans up after a client was sent by an earlier step: the time-out of its creator, or a waiter that found it had failed to get ready |
| `ClientCache.WasCreated` | internal/tgc/clientcache.go:104-116 | a call that waits as a creator has created that client in an earlier step |
| `ClientCache.ConnectionEnded` | internal/tgc/clientcache.go:119-144 | a client whose connection has ended has seen it end, or its authorisation fail, in an earlier step |
| `ClientCache.CancelledForCause` | internal/tgc/clientcache.go:88-225 | for every cancelled client there is a step of the run that removed it: the shutdown, a reap of an idle one, a clean-up prompted by a still earlier step (the time-out of its creator or its failure to get ready), or its own end after its connection or authorisation failed |
| `ClientCache.WasStarted` | internal/tgc/clientcache.go:79-158 | every call was started by a step of the run, and a call for a key only ever waits for, cleans up after and returns the client of that key |
| `ClientCache.ReturnsOwnKey` | internal/tgc/clientcache.go:88-158 | the client that a call returns is that of the key it asked for |
| `ClientCache.LastAtIsLookup` | internal/tgc/clientcache.go:88-114 | the time kept for a client is that of its last lookup |
| `ClientCache.ReapTakesIdle` | internal/tgc/clientcache.go:209-225 | a reap takes out exactly the listed clients whose last lookup was too long ago when it read the clock |
| `ClientCache.CloseEmptiesMap` | internal/tgc/clientcache.go:196-206 | a shutdown leaves no entry and holds all clients that were listed |
| `ClientCache.DecisionsAreFinal` | internal/tgc/clientcache.go:60-65 | over whole runs readiness is decided at most once, a removed client never returns, a cancelled one stays cancelled |
| `ClientCache.StepOverwritesNothing` | internal/tgc/clientcache.go:88-116 | an existing entry is never overwritten |
| `ClientCache.ReplacedOnlyAfterRemoval` | internal/tgc/clientcache.go:88-116 | if a key has another client later, it was without one in between |
| `ClientCache.CleanupSparesOthers` | internal/tgc/clientcache.go:182-193 | a late clean-up of one client leaves the entries and the state of all others, its replacement included, as they are |
| `ClientCache.WaitersAreServed` | internal/tgc/clientcache.go:147-158 | whoever waits for a client can go on, or the client's goroutine can take a step; a finished goroutine leaves no entry; only ready clients are returned |
| `ClientCache.ReturnedIsAuthorised` | internal/tgc/clientcache.go:119-152 | a client is only handed out after its authorisation has succeeded in the run |
| `ClientCache.ReadinessIsGenuine` | internal/tgc/clientcache.go:60-65 | what is or will be signalled about a client was decided by an earlier step: its authorisation, or the end of its connection with that error |
| `ClientCache.WasLookedUp` | internal/tgc/clientcache.go:88-116 | a call that waits has looked the client up: as its creator exactly if the key had no entry, and then the client is a new one, otherwise it is the entry of the key |
| `ClientCache.WaitEnds` | internal/tgc/clientcache.go:92-103 | a wait ends with the client if it is usable, else without; a creator cleans up after its time-out, a later call after an unusable client, and nobody else does |
| `BotRotation.BotWorker.constructor` | internal/tgc/workers.go:18-26 | a new worker knows no bots and no blocks |
| `BotRotation.BotWorker.Set` | internal/tgc/workers.go:28-36 | the bots of a user are set once, with the cursor at 0 |
| `BotRotation.BotWorker.SetWithProxies` | internal/tgc/workers.go:38-56 | the same, and exactly the given bots with a given proxy have their proxy updated, also when the bots were set before |
| `BotRotation.BotWorker.MarkBlocked` | internal/tgc/workers.go:69-73 | the bot is blocked from then on exactly until the duration from a moment during the call is over; for all other bots and times nothing changes |
| `BotRotation.MarkThenNext` | internal/tgc/workers.go:69-113 | a bot that was told to wait is not given out before its wait is over while another listed bot is free; no bot is given out whose block is on |
| `BotRotation.BotWorker.IsBlocked` | internal/tgc/workers.go:76-88 | whether the block is still on at that moment |
| `BotRotation.BotWorker.Next` | internal/tgc/workers.go:90-113 | the next bot in round-robin order; all that are passed over were blocked; a blocked bot is returned only when all are; the cursor moves behind it |
| `BotRotation.MinWaitIsMinimum` | pkg/services/upload.go:266-270 | the running minimum is the least flood wait behind the last wait of zero, and zero exactly if there is none |
| `BotRotation.Attempt` | pkg/services/upload.go:282-307 | a flood wait blocks the bot for that long and counts for the minimum, nothing else does |
| `BotRotation.TakeTurn` | pkg/services/upload.go:200-307 | a turn either skips a bot that was tried before or tries it; in both cases the cursor has moved on and every free bot it has passed was tried |
| `BotRotation.TryBot` | pkg/services/upload.go:216-307 | an attempt goes through the proxy of its bot if proxies are enabled and it has one, and directly otherwise |
| `BotRotation.QuietTurn` | internal/tgc/workers.go:90-113 | as long as no block runs out and no bot is listed twice, a turn goes to a free bot that was not tried yet, if there is one |
| `BotRotation.TryAll` | pkg/services/upload.go:195-312 | unless an attempt ends the upload, one cycle tries every free bot within as many places of the cursor as there are turns, and all free bots of a list not longer than that; never all of them when more are free than turns; without expiring blocks and repeated bots all of them exactly when not more are free than turns; no bot twice, at most as many attempts as turns |
| `BotRotation.WaitFrees` | pkg/services/upload.go:314-324 | after the wait at least one bot is free |
| `BotRotation.Upload` | pkg/services/upload.go:168-353 | without tokens exactly one attempt, with the session of the user, whose outcome is the response; otherwise, for any list that the worker may already have: at most four cycles, each reaching the free bots as above with as many turns as tokens, every attempt through the proxy given for its bot or known before, a wait for the shortest block between cycles, after which a bot is free; at most four attempts per token, none after a success or a fatal error; a retry-later answer only after the fourth cycle, with the minimum of its flood waits; otherwise the result of the last attempt |
| `BotRotation.LongerListMissesABot` | pkg/services/upload.go:177-200 | with two free bots on the list and one token, the first cycle misses a free bot |
| `BotRotation.ZeroWaitResets` | pkg/services/upload.go:266-270 | after waits of 5, 0 and 9 seconds the running minimum is 9 |
| `FolderTree.RecursiveExtends` | internal/database/migrations/20240802213957_alter_table.sql:130-155 | what a recursive query finds within a number of rounds is exactly the extensions of its first rows by so many steps |
| `FolderTree.PathsAreShort` | internal/database/migrations/20240802213957_alter_table.sql:320-345 | on a forest a path is not longer than the table, so that the rounds end |
| `FolderTree.QueryFindsPaths` | internal/database/migrations/20240802213957_alter_table.sql:320-345 | a recursive query finds exactly the paths that begin with one of its first rows |
| `FolderTree.PathIsUnique` | internal/database/migrations/20240802213957_alter_table.sql:332-345 | there is at most one path from a root to a row |
| `FolderSizes.HierarchyIsPaths` | internal/database/migrations/20240802213957_alter_table.sql:320-345 | the hierarchy is exactly the paths of folders from a root |
| `FolderSizes.TotalIsSubtreeSum` | internal/database/migrations/20240802213957_alter_table.sql:346-368 | joining by path containment and adding direct sizes gives the sum of the sizes of all files in the subtree |
| `FolderSizes.TotalIsRecursive` | internal/database/migrations/20240802213957_alter_table.sql:346-368 | the totals satisfy the recursive definition: direct size plus the totals of the subfolders |
| `FolderSizes.UpdateSizeIsRight` | internal/database/migrations/20240802213957_alter_table.sql:369-373 | exactly the folders below a root get their subtree sum; all other rows and columns stay |
| `FolderSizes.UpdateTwice` | internal/database/migrations/20240802213957_alter_table.sql:315-375 | the sizes folders had before do not matter: updating twice is updating once |
| `FolderPaths.GetPathIsDirPath` | internal/database/migrations/20240915121635_function.sql:11-48 | the path computed for a folder is the one the lookup builds for it; a root gets its own name |
| `FolderPaths.GetPathInFolder` | internal/database/migrations/20240915121635_function.sql:22-48 | the path computed for a file or folder in a folder is the path of that folder, a slash and its own name |
| `FolderPaths.HasPathIfRooted` | internal/database/migrations/20240915121635_function.sql:11-48 | a path is computed exactly for the rows that lead up to a row without a parent |
| `FolderPaths.PathsDiffer` | internal/database/migrations/20240802213957_alter_table.sql:130-159 | different folders of a user have different paths |
| `FolderPaths.LookupIsUnique` | internal/database/migrations/20240802213957_alter_table.sql:157-160 | a lookup has one answer |
| `FolderPaths.PathRoundTrip` | internal/database/migrations/20240915121635_function.sql:3-50 | looking up the path of a folder finds it if and only if it is neither a root with a name nor a nameless folder directly in a root |
| `FolderPaths.NamedRootIsNotFound` | internal/database/migrations/20240915121635_function.sql:3-50 | the path computed for a root called root is /root, under which a lookup finds nothing, while / finds the root |
| `FolderCreation.PartsSpellPath` | internal/database/migrations/20240915100057_modify.sql:16-18 | the parts of a path have no slash and, joined, spell the path with one slash in front |
| `FolderCreation.LeadingSlashes` | internal/database/migrations/20240915100057_modify.sql:16-18 | however many slashes a path begins with, its parts spell it with one |
| `FolderCreation.Insert` | internal/database/migrations/20240915100057_modify.sql:33-37 | a new folder row under an unused id, or the unique violation exactly if an active row of that name is there |
| `FolderCreation.PrefixPaths` | internal/database/migrations/20240802213957_alter_table.sql:130-155 | the folders along a found path have the paths of its beginnings |
| `FolderCreation.CreateDirectories` | internal/database/migrations/20240915100057_modify.sql:4-44 | existing rows never change and new ones are folders of the user; unobstructed, the result is what a lookup of the path then finds, order is kept, only folders on the path are inserted, and nothing if it was found before; if no two rows of the user in one place share a name, the result is found under the path if and only if the walk was unobstructed |
| `FolderCreation.FileInTheWay` | internal/database/migrations/20240915100057_modify.sql:4-44 | beside a file called a, creating the folder /a returns nothing that a lookup of /a finds |
| `FolderCreation.CreateTwice` | internal/database/migrations/20240915100057_modify.sql:4-44 | a second call changes nothing and returns the same folder |
| `FolderDeletion.FolderIdsAreReachable` | internal/database/migrations/20240802213957_alter_table.sql:178-190 | the query finds exactly the user's folders at or below a listed folder |
| `FolderDeletion.DeleteBulkIsExact` | internal/database/migrations/20240802213957_alter_table.sql:172-200 | exactly these folders are removed, exactly the user's files that are listed or lie in one of them are marked, every other row stays as it is |
| `FolderDeletion.ActiveRowsReachRoot` | internal/database/migrations/20240802213957_alter_table.sql:192-198 | every active row that is left still reaches its root |
| `Retry.Handle` | internal/retry/retry.go:61-111 | at most max calls, at most max(i, 3) if the first read timeout is call i, only retriable failures are repeated, and such a failure is returned only when the budget is used up; the result is success, the wrapped error of the last call with its RPC cause, or the end of the context; the -503 Timeout of a request that may write, unless configured or matched by a prefix, is the last call |
| `Retry.RetriedFailures` | internal/retry/retry.go:46-78 | repeated are the -503 Timeout of the three reads, wrapped or not, RPC errors of a configured kind or of the kind of an internal error, errors in whose text an internal error occurs, and nothing else |
| `Retry.LastTimeout` | internal/retry/retry.go:61-111 | the timeout of a read is the last call only if the context is done, the limit is reached, or it is call number max(i, 3) with i the first such call |
| `Retry.MatchIsInPieces` | internal/retry/retry.go:33-43 | searching the printed text of an error, wrapped any number of times, for an internal error is searching the prefixes of its wrappers and what they wrap; no match runs across a boundary |
| `Retry.WritesAreNotRetried` | internal/retry/retry.go:33-59 | a -503 Timeout of any request but the three reads, wrapped in any way, is retried if and only if Timeout is configured or a wrapper has put an internal error in front of it |
| `Retry.WrappedTimeoutIsRetried` | internal/retry/retry.go:33-59 | wrapped behind connection dead it is retried with nothing configured, bare it is not |
| `Retry.HandleRecovering` | internal/recovery/recovery.go:22-51 | each round keeps the retry budget; a further round follows exactly a failure that is no RPC error, as long as the backoff and the context allow; an RPC error ends the request with the same cause; a -503 Timeout as above is the last call of the last round |
| `ScanTracker.Compact` | internal/middleware/scan_detector.go:94-102 | the entries newer than the cutoff, in order, at the front of the same array |
| `ScanTracker.NewerTwice` | internal/middleware/scan_detector.go:94-102 | what an earlier cutoff removed a later one would have removed |
| `ScanTracker.RequestTracker.RecordRequest` | internal/middleware/scan_detector.go:78-105 | the count is that of all requests of this client in the last second, in its full history |
| `ScanTracker.RequestTracker.Append` | internal/middleware/scan_detector.go:91-92 | the entry is appended, in place while there is room |
| `ScanTracker.RequestTracker.Slide` | internal/middleware/scan_detector.go:91-102 | appending and compacting keep exactly the entries inside the window |
| `ScanTracker.RequestTracker.Cleanup` | internal/middleware/scan_detector.go:65-74 | exactly the clients idle beyond the limit are deleted; histories, and with them later counts, are unaffected |
| `ScanTracker.RequestTracker.IsScanning` | internal/middleware/scan_detector.go:108-111 | whether the full history has more requests in the last second than the threshold |

## Left out

- The caller's slice of `Read` is a returned sequence of at most the slice's length; aliasing of caller memory, of pooled block buffers and of the chunk buffer that a reader hands out is not modelled.
- Mutexes of the encrypter and the decrypter: their methods are modelled as called one at a time.
- `LinearReader.Close`, and reading from a linear reader after it: not modelled.
- Decryption.Decrypter.NewSeek: offsets are not negative; the code has no check for negative ones, and none of its callers passes one. An empty stored part is only opened with a limit: without one the code would cut a byte out of an empty chunk.
- Decryption.Decrypter.OpenStart: an empty stored part is only opened with a limit, as for NewSeek.
- Decryption.Decrypter.RangeSeek: offsets are not negative, as for NewSeek.
- Decryption.Decrypter.Reopen: offsets are not negative, as for NewSeek.
- Decryption.OpenRangeSeek.Open: offsets are not negative, as for NewSeek; an empty stored part is only opened with a limit.
- 64-bit overflow is stated for `calculateUnderlying` (offsets and limits below 2^62); elsewhere sizes are unbounded integers.
- Readers.TgReader.Next: chunks are as long as the part allows; the sequential reader slices them without looking at their length, and only the parallel reader detects short ones. No request error is the bare end of file.
- Readers.TgReader.Read: end of file means that nothing is owed as long as no request error is the bare end of file.
- Timeouts, rate limits, backoff delays and the lifetime of cache entries as numbers: time outs and evictions may happen at any moment. The shift that computes the retry delay is not modelled.
- The two stages of an upload attempt, creating a client and uploading, with the fallback to a direct connection: one oracle per attempt, because both stages treat their errors alike.
- Blocks of bots outside the worker, and the use that an attempt makes of a proxy: not modelled.
- The message of the retry-later answer: the wait itself, not its rounding to seconds.
- Creating a client inside the cache's lock and authorising it: outcomes are arbitrary.
- Columns of the files table that the modelled statements do not touch, NULL sizes (taken as 0) and row order.
- FolderSizes.UpdateSizeIsRight: the update is a function of the table, not a statement that changes it in place.
- FolderDeletion.DeleteBulkIsExact: the two statements are a function of the table, not statements that change it in place.
- Retry.HandleRecovering: the backoff is a number of waits it is willing to make, not a schedule; that number is arbitrary but finite.
- Retry.MatchIsInPieces: a wrapper prints its prefix, a colon and a space before its cause, and an RPC error its code and message; errors that print otherwise are not modelled.
- Scrypt, XSalsa20-Poly1305, AES name keys and salts; Telegram requests, the database engine, HTTP, logging, configuration.
- Coherence of cached metadata with the database across file operations: the code does not keep it on all paths.
- Pagination of the file query builder, range header parsing, categories, cron jobs: they would only add easy members.
