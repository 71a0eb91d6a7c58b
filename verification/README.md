# Snakesocks: verified models

Dafny models of the hard parts of Snakesocks, a proxy with a Go server, C++ client and server, and loadable C
encryption modules, together with proofs about them. `dafny verify dfyconfig.toml` checks everything.

- **Encryption.** `AesTables`, `AesField`, `AesSBox`, `AesCipher`, `AesInPlace`, `AesSchedule`, `AesModes`,
  `AesKnownAnswer` and `AesPadding` model the AES-128 code and the padding above it. The reference is FIPS 197: a field product by long
  division, the substitution by field inverse and affine map, the round steps, and the recursive key schedule. The array
  code is proved against it, decryption is proved to undo encryption, and the standard's worked example is reproduced.
- **Packets of the encrypting module.** `SeProxy`: session-key handshake and packet codec.
- **A proxied connection of the Go server.** `ProxySession` is a state machine over four goroutines, one inner
  goroutine and their channels. Its runs are all interleavings. `Dispatcher` does the same for the worker pool.
- **Condition variable for MinGW.** `ConditionVariable` models its threads statement by statement, in three regimes:
  untimed waits, timed waits with `notify_all` only, and everything mixed.
- **Object pool.** `TraceableList` is the linked structure, refining a sequence of nodes. `ObjectPool` is the monitor.
- **Byte streams.** `Framing` (socket loops, length-prefixed packets, C++ and Go ends), `Tunnel` (the server's event
  loop) and `Socks5` (request parsing into fixed buffers, address records).
- **INI files.** `IniStrings`, `IniStore`, `IniParser`, `IniReading`, `IniPrinter` and `IniRoundTrip`: section and key
  store, parser, what it makes of comments, continued lines and quotes, printer, and the proof that the printed text
  parses back.

Code that updates memory is modelled by methods over arrays and objects, proved against functions on values; the lemmas
are about those functions. Goroutines and threads are step relations; sockets, the resolver, time, `rand()` and the
scheduler are part of the events or parameters.

## Where the code does less than it seems to promise

- `AES_ECB_encrypt` and `AES_ECB_decrypt` encipher the first block only and copy the rest. The model does the same; the
  round trips hold.
- Less mode of `AESEncrypt` works in place on a whole block of the output, so the output must have 16 bytes.
- `ClientDealAuthReply` and `Decode` follow a length field of the peer without checking it, and decryption works on a
  whole block of buffers that may be shorter. The outcomes `Overrun` and `OutOfBounds` stand for what then leaves the
  buffer: `ReplyLeavesBuffer`, `DecodeLeavesBuffer` and `DecodeOfPadded` say when.
- Payloads above 2^32 - 44 bytes make the packet length wrap: `Encode`, `HandshakeThenExchange`.
- The CBC calls treat a partial last block as whole and touch one more block behind it: `CbcEncryptBuffer`.
- The session's client reader can block for ever on `chans2r` after the remote writer has failed: `StrandingIsReachable`
  gives a run, `HandsOverUnlessStranded` the exact condition. The inner remote reader can do so on `chans2c`:
  `ReaderStrandingIsReachable`, `ReaderHandsOverUnlessStranded`.
- `Dispatcher.Run` is called before `JobQueue` is assigned. If the dispatcher reaches its first select earlier, no job is
  ever served: `UnluckyOrderIsReachable`, `ServesIffMadeFirst`.
- `new_obj_ready` is cleared by every borrow: `FlagCanHideFreeObjects` is a run, `FlagIsLastRelease` says when.
- `fill_full` ignores what the pool holds already: `FillFull` says when the bound is kept.
- `notify_one` mixed with timed waits can leave a token, and can wait for ever with the mutex held:
  `SurplusTokenWhenMixed`, `NotifyOneCanHang`, `CleanUnlessMixed`, `HopeUnlessMixed`.
- `notify_all` with more than 65535 waiters releases nothing and waits for ever: `ReturnsIffFewThreads`.
- The server writes a real IPv6 address in a form that names no host: `TextNamesAddress`.
- SOCKS length bytes are read through a signed `char`: `Overruns` and `TooManyMethods` in `Socks5` are the exact
  conditions for leaving the buffers.
- `addr_info::operator!` adds bytes modulo 256, so some resolved addresses are refused: `ResolvedV4Refused`.
- An `addr_info` of an IPv6 address with twelve zero bytes at the end turns into IPv4: `ThroughSixteenBytes`.
- An INI value in triple quotes ends at the first line that holds a triple quote; keys and values that are not trimmed,
  end in a backslash or look quoted do not survive printing: `ValueReadBack`, `KeyReadBack`.

## Assumptions

- Little-endian host, natural alignment of the packet structure (port at 16, size at 20, payload at 24, size 28), `char`
  signed, `size_t` of 64 bits.
- Buffers that the C code receives as separate pointers do not overlap.
- Uninitialised memory holds arbitrary values.
- A socket call that has been made returns, and so does a handler (used only where progress is claimed).
- The job queue has room for at least one job; an unbuffered one is not modelled.
- INI text is valid UTF-8, modelled as Unicode characters, read and written with the default load options.

## Model

| member | source | states |
|---|---|---|
| `AesTables.InvertUndoesValue` | src/modules/module_util/kokke_aes.c:107-192 | the inverse substitution table undoes the forward table on all 256 bytes |
| `AesTables.ValueUndoesInvert` | src/modules/module_util/kokke_aes.c:107-192 | and the other way round, so both tables are permutations |
| `AesSBox.EntryHasInverse` | src/modules/module_util/kokke_aes.c:107-124 | every table entry is the affine image of an inverse of its index in the field |
| `AesSBox.SBoxIsAffineOfInverse` | src/modules/module_util/kokke_aes.c:107-124 | and of every such inverse: the table is the definition of section 5.1.1 of FIPS 197 |
| `AesField.RemainderFits` | src/modules/module_util/kokke_aes.c:324-364 | the reference field product by long division modulo 0x11b always leaves a byte |
| `AesField.XtimeIsTimesTwo` | src/modules/module_util/kokke_aes.c:324-327 | the shift-and-mask doubling is the field product with 02 of section 4.2.1 of FIPS 197 |
| `AesField.MultiplyNine` | src/modules/module_util/kokke_aes.c:347-364 | the five-bit multiplication agrees with the field product for the coefficient 09 |
| `AesField.MultiplyEleven` | src/modules/module_util/kokke_aes.c:347-364 | likewise for 0b |
| `AesField.MultiplyThirteen` | src/modules/module_util/kokke_aes.c:347-364 | likewise for 0d |
| `AesField.MultiplyFourteen` | src/modules/module_util/kokke_aes.c:347-364 | likewise for 0e |
| `AesInPlace.Shortcut` | src/modules/module_util/kokke_aes.c:330-343 | the one-doubling shortcut computes a row of the column matrix of section 5.1.3 of FIPS 197 |
| `AesField.InvMixedByte` | src/modules/module_util/kokke_aes.c:366-384 | the two column matrices multiply to the identity over the field |
| `AesCipher.InvMixColumnsUndoes` | src/modules/module_util/kokke_aes.c:330-384 | InvMixColumns after MixColumns is the identity on every state |
| `AesCipher.InvShiftRowsUndoes` | src/modules/module_util/kokke_aes.c:296-427 | the row shifts are inverse permutations |
| `AesCipher.InvRoundsUndo` | src/modules/module_util/kokke_aes.c:431-479 | the descending inverse rounds mirror the ascending rounds, for every number of rounds |
| `AesCipher.InvCipherUndoesCipher` | src/modules/module_util/kokke_aes.c:431-479 | InvCipher undoes Cipher for every block and every 176-byte schedule |
| `AesCipher.LastKey` | src/modules/module_util/kokke_aes.c:431-454 | ten rounds: the last step adds the eleventh round key, bytes 160 to 175 of the schedule, to something that depends on the bytes before only |
| `AesCipher.FirstInvKey` | src/modules/module_util/kokke_aes.c:456-479 | the inverse cipher begins with that key: blocks that differ as the eleventh keys of two schedules do are deciphered alike |
| `AesCipher.RowsMove` | src/modules/module_util/kokke_aes.c:296-427 | the direction of the row shifts: row r of column c comes from column c + r |
| `AesKnownAnswer.KnownAnswer` | src/modules/module_util/kokke_aes.c:194-518 | the worked example of appendix B of FIPS 197: its key and plaintext give its ciphertext, through the schedule and all ten rounds, and back |
| `AesInPlace.AddRoundKey` | src/modules/module_util/kokke_aes.c:267-277 | the in-place step equals the specification of section 5.1.4 and touches only the 16 bytes of its block |
| `AesInPlace.SubBytes` | src/modules/module_util/kokke_aes.c:281-291 | in-place substitution of one block |
| `AesInPlace.InvSubBytes` | src/modules/module_util/kokke_aes.c:389-399 | in-place inverse substitution of one block |
| `AesInPlace.ShiftRows` | src/modules/module_util/kokke_aes.c:296-322 | the byte-by-byte rotations through one temporary move row r by r columns |
| `AesInPlace.InvShiftRows` | src/modules/module_util/kokke_aes.c:401-427 | the opposite rotations move row r back by r columns |
| `AesInPlace.MixColumns` | src/modules/module_util/kokke_aes.c:330-343 | the shortcut loop applies the field matrix to each column of the block and to nothing else |
| `AesInPlace.InvMixColumns` | src/modules/module_util/kokke_aes.c:368-384 | the Multiply-based loop applies the inverse field matrix |
| `AesSchedule.RconIsRoundConstant` | src/modules/module_util/kokke_aes.c:146-147 | the table of round constants holds the powers of x of section 5.2 |
| `AesSchedule.KeyExpansion` | src/modules/module_util/kokke_aes.c:194-263 | the loop over the round-key array produces exactly the recursive word schedule of section 5.2, every index in range |
| `AesModes.Cipher` | src/modules/module_util/kokke_aes.c:431-454 | the in-place cipher equals the specification on the block at any offset and leaves the rest of the buffer alone |
| `AesModes.InvCipher` | src/modules/module_util/kokke_aes.c:456-479 | likewise for the inverse cipher |
| `AesModes.EcbEncrypt` | src/modules/module_util/kokke_aes.c:488-502 | copies the whole input and enciphers the first block only, as the code does |
| `AesModes.EcbDecrypt` | src/modules/module_util/kokke_aes.c:504-518 | the same with the inverse cipher |
| `AesModes.EcbRoundTrip` | src/modules/module_util/kokke_aes.c:488-518 | decryption restores every input of at least one block, for every key |
| `AesModes.CbcEncryptBuffer` | src/modules/module_util/kokke_aes.c:539-576 | the loop with the walking mask pointer computes the chaining of section 6.2 of NIST SP 800-38A although it overwrites its input; with a partial last block, what the code then does to the bytes behind it |
| `AesModes.CbcDecryptBuffer` | src/modules/module_util/kokke_aes.c:578-615 | the decryption loop computes the inverse chaining, the mask pointer walking through the ciphertext; likewise with a partial last block |
| `AesModes.CbcRoundTrip` | src/modules/module_util/kokke_aes.c:539-615 | chained decryption recovers the plaintext for every key schedule, initial vector and whole number of blocks |
| `AesModes.CbcBlock` | src/modules/module_util/kokke_aes.c:539-576 | block by block: each ciphertext block enciphers its plaintext block added to the ciphertext block before it, the first to the initial vector |
| `AesModes.UncbcBlock` | src/modules/module_util/kokke_aes.c:578-615 | each plaintext block is the deciphered block added to the ciphertext block before it |
| `AesModes.CbcBothWays` | src/modules/module_util/kokke_aes.c:539-615 | the two calls on real, non-overlapping buffers restore the first input, for every length, given room for what they touch |
| `AesPadding.RoundsToMultiples` | src/modules/module_util/aes.c:5-11 | the rounding functions give the least multiple strictly above and the greatest multiple not above |
| `AesPadding.NormalKeysAgree` | src/modules/module_util/aes.c:29-35 | the key used has the given key's first sixteen bytes, zero where there are none, so two keys are used alike if and only if they agree on these |
| `AesPadding.PaddedAt` | src/modules/module_util/aes.c:36-40 | byte by byte: the source, zeros, and the number of bytes added |
| `AesPadding.FillRoundTrip` | src/modules/module_util/aes.c:28-45 | fill mode returns the original length and bytes for every length, multiples of 16 included, and all pairs of keys that agree on the sixteen bytes used |
| `AesPadding.LessRoundTrip` | src/modules/module_util/aes.c:15-27 | less mode returns the original bytes whenever there is a whole block |
| `AesPadding.AesEncrypt` | src/modules/module_util/aes.c:13-45 | both modes of the encrypting call, with key normalisation and the 32-bit cut of lengths |
| `AesPadding.AesDecrypt` | src/modules/module_util/aes.c:47-75 | both modes of the decrypting call, with the length read from a signed last byte |
| `SeProxy.DecodeEncode` | src/modules/se_proxy/se_proxy.c:74-143 | decoding an encoded query restores address, port and payload whatever the uninitialised bytes of the structure hold, for every structure with a 32-bit length |
| `SeProxy.DecodeLeavesBuffer` | src/modules/se_proxy/se_proxy.c:102-142 | for every packet of a block or more, in terms of what was encrypted: decoding leaves its buffer if and only if the image passes for long enough but is too short for its header or its size field, and refuses it exactly when it passes for too short |
| `SeProxy.DecodeOfPadded` | src/modules/se_proxy/se_proxy.c:228-267 | for properly padded data: if and only if the size field claims more than the padded structure has |
| `SeProxy.OutOfBoundsExists` | src/modules/se_proxy/se_proxy.c:228-267 | 25 bytes that do it |
| `SeProxy.ReplyLeavesBuffer` | src/modules/se_proxy/se_proxy.c:54-73 | for every reply of a block or more: the client leaves its buffer if and only if the image begins with the magic text and its signed last byte puts the length outside 8 to the length of the image, and refuses exactly the images that do not begin with that text |
| `SeProxy.OverrunExists` | src/modules/se_proxy/se_proxy.c:54-73 | one block that does it |
| `SeProxy.HandshakeAgrees` | src/modules/se_proxy/se_proxy.c:39-187 | with passphrases that agree on the sixteen bytes used and any non-negative number drawn, the server accepts the query and the client derives the server's session key |
| `SeProxy.DecimalLength` | src/modules/se_proxy/se_proxy.c:173-180 | the decimal that sprintf writes fits the buffers for every value of rand() |
| `SeProxy.DecimalIsDigits` | src/modules/se_proxy/se_proxy.c:173-180 | that decimal consists of the number's digits, which read back as the number |
| `SeProxy.AuthExactly` | src/modules/se_proxy/se_proxy.c:145-172 | the server accepts what was encrypted under its passphrase if and only if it is the fixed text |
| `SeProxy.ImageBytes` | src/modules/se_proxy/se_proxy.c:74-101 | where port and size stand in the structure, low byte first |
| `SeProxy.ConnectInfo.ClientMakeAuthQuery` | src/modules/se_proxy/se_proxy.c:39-52 | the query is the padded encryption of the fixed text under the passphrase |
| `SeProxy.ConnectInfo.ServerMakeAuthReply` | src/modules/se_proxy/se_proxy.c:145-187 | the connection is refused exactly when length or bytes of the decrypted text differ, otherwise session key and reply agree; no reply exactly for requests shorter than a block |
| `SeProxy.ConnectInfo.ClientDealAuthReply` | src/modules/se_proxy/se_proxy.c:54-72 | refusal, acceptance with the session key, or leaving the buffer, for replies of every length |
| `SeProxy.ConnectInfo.Encode` | src/modules/se_proxy/se_proxy.c:189-226 | the packet is the encryption of a structure image with port at 16, size at 20 and payload at 24, and decodes to the query if and only if its length fits into 32 bits |
| `SeProxy.ConnectInfo.Decode` | src/modules/se_proxy/se_proxy.c:228-267 | decryption, the cut of the length to 32 bits and field extraction, with the too-short and out-of-buffer cases, for packets of every length |
| `SeProxy.HandshakeThenExchange` | src/modules/se_proxy/se_proxy.c:39-267 | the whole exchange: after the handshake a query encoded on either side is decoded unchanged on the other, if and only if its payload has at most 2^32 - 44 bytes |
| `ProxySession.StepKeepsInv` | src/server-go/src/server/server.go:122-344 | every step of every goroutine keeps the token, start-signal, dial and byte-order invariants |
| `ProxySession.ReachableInv` | src/server-go/src/server/server.go:122-344 | so every state reachable by any interleaving satisfies them |
| `ProxySession.NoBlockingOutsideData` | src/server-go/src/server/server.go:139-344 | the remote connection is set before it is used, end tokens never exceed the channel capacity, each start signal finds its one receiver waiting, the first packet is handed over without waiting |
| `ProxySession.DeliveredInOrder` | src/server-go/src/server/server.go:220-344 | what was written to each side is at all times an initial segment of what was taken from the other |
| `ProxySession.DeliveredFromRun` | src/server-go/src/server/server.go:220-344 | likewise against the packets and reads that occur in the run |
| `ProxySession.WriteAdds` | src/server-go/src/server/server.go:252-279 | a write hands the remote the client's next bytes: the whole packet, or as many as went out before it failed |
| `ProxySession.NameQueryComesFirst` | src/server-go/src/server/server.go:149-202 | in every run a name query is served as such only before any other was answered and any packet sent on |
| `ProxySession.OverExactlyWhen` | src/server-go/src/server/server.go:139-344 | over every run: a party has given up if and only if one of its own endings occurred in the run |
| `ProxySession.FailureEndsSession` | src/server-go/src/server/server.go:139-316 | once reading from the client, resolving, dialing or writing to the remote has failed, the session can finish altogether |
| `ProxySession.RemoteFailureEndsSession` | src/server-go/src/server/server.go:281-344 | once a read from the remote has failed, both workers on its data can finish, and the remote writer too unless the client is still being read |
| `ProxySession.ShutdownNeverDeadlocks` | src/server-go/src/server/server.go:252-344 | once the end token is posted, as long as one of the three workers is unfinished, an unfinished worker can step |
| `ProxySession.ShutdownIsBounded` | src/server-go/src/server/server.go:252-316 | from then on the remote writer and the remote watcher finish within seven steps of their own, whatever the others do |
| `ProxySession.StrandedForever` | src/server-go/src/server/server.go:248-279 | a client reader blocked on a full channel after the remote writer has left stays blocked in every continuation |
| `ProxySession.HandsOverUnlessStranded` | src/server-go/src/server/server.go:220-279 | a reader that holds a packet can still hand it over if and only if it is not in that state |
| `ProxySession.StrandingIsReachable` | src/server-go/src/server/server.go:220-279 | a run that ends in that state |
| `ProxySession.ReaderStrandedForever` | src/server-go/src/server/server.go:293-344 | the same of the inner remote reader and the channel to the client, once the client writer has left |
| `ProxySession.ReaderHandsOverUnlessStranded` | src/server-go/src/server/server.go:293-344 | it can hand its data over if and only if it is not in that state |
| `ProxySession.ReaderStrandingIsReachable` | src/server-go/src/server/server.go:293-344 | a run that ends in that state |
| `Dispatcher.StepKeepsInv` | src/server-go/src/server/worker_pool.go:32-82 | every step keeps each job channel in one place and each accepted job in one place |
| `Dispatcher.ReachableInv` | src/server-go/src/server/worker_pool.go:32-82 | so does every run |
| `Dispatcher.ChannelsNeverBlock` | src/server-go/src/server/worker_pool.go:32-82 | registration always finds room, a goroutine holding a channel can always hand its job over, each accepted job is exactly one of queued, in flight, running or done |
| `Dispatcher.QueueIsInOrder` | src/server-go/src/server/worker_pool.go:72-81 | in every run the queue is the ascending run of the last accepted jobs, so jobs leave it in the order in which they came |
| `Dispatcher.WorkIsNeverStuck` | src/server-go/src/server/worker_pool.go:32-82 | while an accepted job is not done, some step towards its completion is possible |
| `Dispatcher.WorkIsProgress` | src/server-go/src/server/worker_pool.go:32-82 | every such step uses up one unit of a finite allowance that only accepting a job adds to |
| `Dispatcher.AtMostAllRun` | src/server-go/src/server/worker_pool.go:64-70 | in every run, at no time do more jobs run than workers were started |
| `Dispatcher.ServesIffMadeFirst` | src/server-go/src/server/worker_pool.go:72-75 | in every reachable state with a worker, an accepted job can still be completed if and only if the dispatcher did not read the queue variable before it was assigned |
| `Dispatcher.NilDispatcherIsDead` | src/server-go/src/server/worker_pool.go:72-81 | otherwise no accepted job ever leaves the queue and none is ever done |
| `Dispatcher.UnluckyOrderIsReachable` | src/server-go/src/server/server.go:59-68 | the start-up code admits that order |
| `ConditionVariable.StepKeepsInv` | src/native/mingw-thread-fix/mingw.condition_variable.h:65-145 | every step of every thread keeps the waiter count and the balance of semaphore tokens |
| `ConditionVariable.NothingLeftOver` | src/native/mingw-thread-fix/mingw.condition_variable.h:65-145 | with untimed waits, whenever the mutex is free the semaphore is 0 and no woken thread is still counted; likewise for timed waits with notify_all only |
| `ConditionVariable.NotifyOneReleasesOne` | src/native/mingw-thread-fix/mingw.condition_variable.h:131-145 | notify_one that found a waiter returns with its assertion true after exactly one token was taken |
| `ConditionVariable.NotifyAllReleasesAll` | src/native/mingw-thread-fix/mingw.condition_variable.h:110-130 | notify_all that passed its count check leaves its loop with its assertion true and returns with no waiter and no token |
| `ConditionVariable.NoneWaitingIsTrue` | src/native/mingw-thread-fix/mingw.condition_variable.h:110-145 | with any mixture of operations: a notifier returns early, and notify_all drains and returns, only when nobody waits |
| `ConditionVariable.NotifyAllWakesAll` | src/native/mingw-thread-fix/mingw.condition_variable.h:110-130 | with any mixture of operations: when notify_all is about to return, every thread that was waiting when it took the mutex has counted itself out |
| `ConditionVariable.NotifierReturns` | src/native/mingw-thread-fix/mingw.condition_variable.h:110-145 | with untimed waits and at most 65536 threads, from wherever a notifier is, a run of its own steps and of those it waits for returns it |
| `ConditionVariable.ReturnsIffFewThreads` | src/native/mingw-thread-fix/mingw.condition_variable.h:59-145 | every notifier can return in every reachable state if and only if there are at most 65536 threads |
| `ConditionVariable.UnreleasedForever` | src/native/mingw-thread-fix/mingw.condition_variable.h:110-121 | notify_all that found more than 65535 waiters has released nothing and never returns |
| `ConditionVariable.EventIsUnseenSignal` | src/native/mingw-thread-fix/mingw.condition_variable.h:73-145 | over every run: the wake event is set if and only if a leaving thread has set it since a notifier last looked |
| `ConditionVariable.NotifierIsNeverAlone` | src/native/mingw-thread-fix/mingw.condition_variable.h:110-145 | with untimed waits and at most 65536 threads a notifier in its wait loop always has a thread that can let it go on |
| `ConditionVariable.SurplusTokenWhenMixed` | src/native/mingw-thread-fix/mingw.condition_variable.h:65-145 | notify_one mixed with a timed wait: a run that leaves a token with nobody waiting |
| `ConditionVariable.CleanUnlessMixed` | src/native/mingw-thread-fix/mingw.condition_variable.h:65-145 | tokens never outlive the mutex if and only if notify_one and timed waits are not used together |
| `ConditionVariable.HopelessForever` | src/native/mingw-thread-fix/mingw.condition_variable.h:131-145 | a notify_one whose target is below zero never returns |
| `ConditionVariable.NotifyOneCanHang` | src/native/mingw-thread-fix/mingw.condition_variable.h:131-145 | a run that gets there: the only waiter times out between the check and the load of the count |
| `ConditionVariable.HopeUnlessMixed` | src/native/mingw-thread-fix/mingw.condition_variable.h:131-145 | no notifier gets there if and only if notify_one and timed waits are not used together |
| `TraceableList.LinkedAfterInsert` | src/native/src/lib/rlib/impl/traceable_list.hpp:129-152 | changing the neighbours' links only turns the linked sequence into the one with the node inserted |
| `TraceableList.LinkedAfterDelete` | src/native/src/lib/rlib/impl/traceable_list.hpp:179-197 | likewise for a deletion |
| `TraceableList.SeparateThenAll` | src/native/src/lib/rlib/impl/traceable_list.hpp:113-118 | nodes in the list were never deleted, so deleting them all deletes none twice |
| `TraceableList.List.Advance` | src/native/src/lib/rlib/impl/traceable_list.hpp:72-75 | ++ moves from node k to position k + 1 |
| `TraceableList.List.Retreat` | src/native/src/lib/rlib/impl/traceable_list.hpp:83-89 | -- moves from position k to position k - 1, from the end through the remembered tail; null is dereferenced exactly when there is none |
| `TraceableList.List.EmplaceOne` | src/native/src/lib/rlib/impl/traceable_list.hpp:129-152 | insert-before on the sequence of nodes; head, tail, both links and the size stay consistent |
| `TraceableList.List.PopOne` | src/native/src/lib/rlib/impl/traceable_list.hpp:179-197 | delete at a position; refused exactly on an empty list or at the end |
| `TraceableList.List.PopFront` | src/native/src/lib/rlib/impl/traceable_list.hpp:199-201 | removes the first node |
| `TraceableList.List.PopBack` | src/native/src/lib/rlib/impl/traceable_list.hpp:203-205 | removes the last node; on an empty list null is dereferenced before anything changes |
| `TraceableList.List.PopSome` | src/native/src/lib/rlib/impl/traceable_list.hpp:207-212 | removes exactly the half-open range, in order, never stepping from a deleted node |
| `TraceableList.List.Destroy` | src/native/src/lib/rlib/impl/traceable_list.hpp:113-118 | every node is deleted exactly once |
| `ObjectPool.StepIsSound` | src/native/src/lib/rlib/pool.hpp:45-110 | borrow and release keep free and lent objects a partition of the bounded buffer, and the ready flag implies a free object |
| `ObjectPool.EveryRunIsSound` | src/native/src/lib/rlib/pool.hpp:45-110 | over every run no object is lent twice and a borrower let through by the flag gets one, so the error throw is unreachable |
| `ObjectPool.LastReleasedFirst` | src/native/src/lib/rlib/pool.hpp:64-103 | the object released last is lent next, and one is built only when none is free and the bound allows |
| `ObjectPool.FlagCanHideFreeObjects` | src/native/src/lib/rlib/pool.hpp:94-103 | the converse fails: a run that leaves a free object with the flag off |
| `ObjectPool.RunFlag` | src/native/src/lib/rlib/pool.hpp:64-103 | over every run from any pool: what the last operation that changed the pool says about the flag and the free list |
| `ObjectPool.FlagIsLastRelease` | src/native/src/lib/rlib/pool.hpp:64-103 | from the empty pool: the flag is on if and only if the last change was a release, and a free object is hidden if and only if the last change was a borrow that found two or more |
| `ObjectPool.FixedObjectPool.FillFull` | src/native/src/lib/rlib/pool.hpp:37-42 | adds as many free objects as the pool may hold; the bound is kept if and only if the pool was empty or may hold nothing |
| `ObjectPool.FixedObjectPool.TryBorrowOne` | src/native/src/lib/rlib/pool.hpp:45-48 | null exactly when every object of a full pool is lent, else the first free object or, if none is free, a new one, with the flag off |
| `ObjectPool.FixedObjectPool.BorrowAfterWaiting` | src/native/src/lib/rlib/pool.hpp:54-62 | after the wait the first free object is always found |
| `ObjectPool.FixedObjectPool.ReleaseOne` | src/native/src/lib/rlib/pool.hpp:64-73 | the object goes to the front of the free list with its flag and the ready flag set |
| `Framing.Socket.RecvN` | src/native/src/lib/rlib/sys/sio.hpp:507-528 | exactly n bytes or failure, whatever partial reads and interruptions occur; succeeds if and only if the bytes come |
| `Framing.Socket.SendN` | src/native/src/lib/rlib/sys/sio.hpp:529-549 | all bytes, or an initial part and failure |
| `Framing.Socket.SendLengthAndPacket` | src/native/src/lib/NetLib.hpp:31-38 | one frame; refused exactly above 64 MiB |
| `Framing.Socket.RecvLengthAndPacket` | src/native/src/lib/NetLib.hpp:39-50 | returns what the wire format says and consumes nothing beyond it |
| `Framing.Socket.ReadB` | src/server-go/src/server/util.go:42-67 | the Go receiver agrees with the same wire format |
| `Framing.Socket.WriteB` | src/server-go/src/server/util.go:69-84 | the Go sender produces the same frame; lengths of 2^31 and more send nothing |
| `Framing.ParseFrame` | src/native/src/lib/NetLib.hpp:31-50 | a frame is accepted if and only if its packet is within the limit, and only the frame is consumed |
| `Framing.HeaderIsBigEndian` | src/native/src/lib/NetLib.hpp:31-50 | the length travels with its most significant byte first, as htonl and the Go encoder have it |
| `Framing.ParseCutFrame` | src/native/src/lib/NetLib.hpp:39-50 | a frame cut anywhere yields no packet |
| `Framing.CutStream` | src/native/src/lib/NetLib.hpp:31-50 | of a stream cut anywhere the receiver gets exactly the packets that arrived whole, in order |
| `Framing.StreamRoundTrip` | src/native/src/lib/NetLib.hpp:31-50 | an uncut stream gives back the list of packets |
| `Framing.Transfer` | src/native/src/lib/NetLib.hpp:31-50 | either sender to either receiver, through any misbehaviour of both kernels short of failure: the same list |
| `Tunnel.IsDnsQuery` | src/native/src/lib/NetLib.hpp:63-70 | true exactly for an all-zero destination |
| `Tunnel.DomainRoundTrip` | src/native/src/lib/NetLib.hpp:51-76 | a domain survives assembly and extraction if and only if it holds no NUL |
| `Tunnel.DomainExactly` | src/native/src/lib/NetLib.hpp:71-76 | the domain of any query: the bytes between the head and the first NUL behind it, empty when there is only a head |
| `Tunnel.NameQueryIsAnswered` | src/native/src/tunnel.cc:207-242 | an assembled name query is answered with what the resolver has for its domain, and a query with a destination is forwarded |
| `Tunnel.OneWork` | src/native/src/tunnel.cc:207-242 | what one query brings: its payload to the next hop and no reply, or one reply with the 16-byte address and no data |
| `Tunnel.WorkAdds` | src/native/src/tunnel.cc:193-256 | queries after each other bring what each of them brings, in order |
| `Tunnel.IpArrayToStr` | src/native/src/lib/NetLib.hpp:78-96 | the loops write four numbers with dots or sixteen with colons |
| `Tunnel.TextNamesAddress` | src/native/src/lib/NetLib.hpp:78-96 | the text is an address literal if and only if bytes 4 to 15 are zero, and then the dotted quad reads back as the first four |
| `Tunnel.Session.AnswerQuery` | src/native/src/tunnel.cc:207-232 | a name query is answered with the address found for its domain in 16-byte form, and opens and forwards nothing |
| `Tunnel.Session.ForwardQuery` | src/native/src/tunnel.cc:233-242 | a data query connects to the text of its address if nothing is connected, then passes its payload on; a broken write leaves a prefix |
| `Tunnel.Session.DealConnection` | src/native/src/tunnel.cc:193-256 | over every run: bytes to the next hop are the joined payloads in order, at most one connection goes to the text of the first data query's address and to its port, each name query has exactly one reply, data from the next hop comes back in order, and an exception leaves at most one query undone |
| `Socks5.MessagesArePrefixFree` | src/native/src/socks5.cc:157-199 | the layout of sections 4 and 6 of RFC 1928 can be split in one way only |
| `Socks5.DecodedIsMessage` | src/native/src/socks5.cc:157-199 | the fields the parser extracts are those of the message in the buffer |
| `Socks5.DecodedIsOnlyMessage` | src/native/src/socks5.cc:157-199 | parsing inverts the encoding for IPv4, IPv6 and domains below 128 bytes |
| `Socks5.KnownRequests` | src/native/src/socks5.cc:157-199 | two requests byte by byte as sections 4 and 5 of RFC 1928 lay them out: an IPv4 address and a domain |
| `Socks5.KnownIPv6Request` | src/native/src/socks5.cc:157-199 | and one for an IPv6 address |
| `Socks5.ReadAsSent` | src/native/src/socks5.cc:188-193 | a target is read as sent if and only if it is not a domain with a NUL in it |
| `Socks5.UnpackConnectionPacket` | src/native/src/socks5.cc:157-199 | version and address-type errors, and the signed length byte, exactly |
| `Socks5.ReadRequest` | src/native/src/socks5.cc:226-247 | how many bytes are asked for, in the arithmetic of size_t, and what comes of it: all read, an exception, or a buffer left |
| `Socks5.ConnectPkgs` | src/native/src/socks5.cc:226-263 | consumes exactly one request, understands it, replies with it under code 0, and does so for every readable request; the buffers are left if and only if a length byte of 128 to 253 is followed by more bytes than there is room for, or one of 254 or 255 passes the version check |
| `Socks5.OverrunExists` | src/native/src/socks5.cc:226-247 | a length byte of 200 does so in a long stream and not in a short one |
| `Socks5.HandshakePkgs` | src/native/src/socks5.cc:201-224 | the choice of method; the connection goes on even when none is acceptable; the buffer is left if and only if a count byte of 128 or more is followed by more bytes than there is room for |
| `Socks5.AddrInfo.IsUnset` | src/native/src/socks5.hpp:74-77 | the byte sum is taken modulo 256 |
| `Socks5.AddrInfo.Try6to4` | src/native/src/socks5.hpp:78-91 | converts exactly the addresses with twelve zero bytes at the end |
| `Socks5.AddrInfo.ToQueryTemplate` | src/native/src/socks5.hpp:93-105 | refused exactly for unset, unresolved and port-less addresses; otherwise the 16-byte form |
| `Socks5.ThroughSixteenBytes` | src/native/src/socks5.hpp:78-105 | an address comes back from its 16-byte form if and only if it is IPv4 or an IPv6 address without that zero tail |
| `Socks5.AcceptResolved` | src/native/src/socks5.cc:290-295 | a resolver's answer is refused if and only if its bytes add up to a multiple of 256 |
| `Socks5.Resolve` | src/native/src/socks5.cc:265-297 | an address found by the server's resolver, sent as 16 bytes and taken back: IPv4 arrives as itself, and so does IPv6 unless it has the zero tail |
| `Socks5.ResolvedV4Refused` | src/native/src/socks5.hpp:74-77 | for IPv4: exactly when the four bytes add up to 0, 256, 512 or 768 |
| `Socks5.RefusedAddressExists` | src/native/src/socks5.hpp:74-77 | 128.128.0.0 is one such address |
| `IniStore.DeleteUndoesPut` | src/server-go/src/github.com/go-ini/ini/ini.go:243-262 | deleting a name just added restores the table and its order |
| `IniStore.ChainAt` | src/server-go/src/github.com/go-ini/ini/section.go:114-127 | the sections consulted are exactly the prefixes of the name that end at a dot, longest first |
| `IniStore.Section.NewKey` | src/server-go/src/github.com/go-ini/ini/section.go:58-85 | empty names refused, existing keys keep their place, new keys come last; map and list stay in step, and the file's document changes accordingly |
| `IniStore.Section.DeleteKey` | src/server-go/src/github.com/go-ini/ini/section.go:221-234 | removes the key from map and list |
| `IniStore.Section.GetKey` | src/server-go/src/github.com/go-ini/ini/section.go:99-130 | terminates, and returns the section's own value or that of the nearest existing parent which has the key, or nothing exactly when none has it |
| `IniStore.File.NewSection` | src/server-go/src/github.com/go-ini/ini/ini.go:243-262 | the existing section or a new one at the end; an empty name is refused |
| `IniStore.File.GetSection` | src/server-go/src/github.com/go-ini/ini/ini.go:287-304 | the empty name means the default section |
| `IniStore.File.DeleteSection` | src/server-go/src/github.com/go-ini/ini/ini.go:340-357 | removes the section from map and list, order of the others kept |
| `IniParser.Parser.ReadMultilines` | src/server-go/src/github.com/go-ini/ini/parser.go:142-166 | reads up to the last quote of the first line that has one; fails exactly when no line has |
| `IniParser.Parser.ReadContinuationLines` | src/server-go/src/github.com/go-ini/ini/parser.go:168-186 | joins trimmed lines while they end in a backslash |
| `IniParser.Parser.ReadValueFrom` | src/server-go/src/github.com/go-ini/ini/parser.go:196-243 | the three quoting styles, continuation, inline comments and surrounding quotes |
| `IniParser.ParseInto` | src/server-go/src/github.com/go-ini/ini/parser.go:246-361 | the reader's loop fills the file with exactly the document that the text denotes, up to the first line that cannot be read |
| `IniReading.InlineComment` | src/server-go/src/github.com/go-ini/ini/parser.go:227-243 | a value with a comment behind it on the line is what stands before the comment |
| `IniReading.CommentedLine` | src/server-go/src/github.com/go-ini/ini/parser.go:257-359 | so a whole such line puts key and value, for instance a port with a remark |
| `IniReading.QuotesTakenOff` | src/server-go/src/github.com/go-ini/ini/parser.go:236-243 | single or double quotes around a value that holds none are taken off and all between them is kept |
| `IniReading.QuotesKept` | src/server-go/src/github.com/go-ini/ini/parser.go:188-243 | when the quote occurs in between, it is all part of the value |
| `IniReading.ContinuationJoins` | src/server-go/src/github.com/go-ini/ini/parser.go:168-186 | lines that end in a backslash read as their trimmed pieces joined in order |
| `IniReading.ValueContinues` | src/server-go/src/github.com/go-ini/ini/parser.go:196-225 | likewise from the first line of the value on |
| `IniReading.CommentSkipped` | src/server-go/src/github.com/go-ini/ini/parser.go:268-275 | a line that begins with a comment character changes nothing |
| `IniReading.BadLine` | src/server-go/src/github.com/go-ini/ini/parser.go:277-331 | an unclosed header and a line without a delimiter end the reading in failure with the document as it was |
| `IniReading.KeyForms` | src/server-go/src/github.com/go-ini/ini/parser.go:100-140 | both delimiters end a key, and double quotes hold one as backticks do |
| `IniReading.NumberedKey` | src/server-go/src/github.com/go-ini/ini/parser.go:333-359 | a key written as a dash gets the next number of its section |
| `IniReading.MarkSkipped` | src/server-go/src/github.com/go-ini/ini/parser.go:53-79 | a byte order mark is not part of the text |
| `IniPrinter.WidthIsLargest` | src/server-go/src/github.com/go-ini/ini/ini.go:444-460 | the alignment is the length of the longest key as written, so the slice of spaces stays in bounds |
| `IniPrinter.ColumnsAlign` | src/server-go/src/github.com/go-ini/ini/ini.go:444-508 | with alignment all equal signs of a section stand in one column, just behind its longest key |
| `IniPrinter.Indented` | src/server-go/src/github.com/go-ini/ini/ini.go:462-516 | every key's line begins with the indentation, except in the default section |
| `IniPrinter.WriteToIndent` | src/server-go/src/github.com/go-ini/ini/ini.go:404-528 | the nested loops write exactly the text of the document, in every format |
| `IniRoundTrip.ValueReadBack` | src/server-go/src/github.com/go-ini/ini/parser.go:196-243 | a value as written is read back, whatever follows it, if and only if it meets the condition of its quoting style |
| `IniRoundTrip.KeyReadBack` | src/server-go/src/github.com/go-ini/ini/parser.go:100-140 | a key as written is read back, whatever the alignment, if and only if it is trimmed and, when quoted with backticks, holds none |
| `IniRoundTrip.MultiLinesBack` | src/server-go/src/github.com/go-ini/ini/parser.go:142-166 | a triple-quoted text over any number of lines is complete unless a line before the last holds the quote, and cut short otherwise |
| `IniRoundTrip.SpaceSkipped` | src/server-go/src/github.com/go-ini/ini/parser.go:257-266 | indentation and blank lines are not seen |
| `IniRoundTrip.HeaderBack` | src/server-go/src/github.com/go-ini/ini/parser.go:277-311 | a header makes its section the current one, new if need be, and starts the numbering of keys again |
| `IniRoundTrip.EntryBackExactly` | src/server-go/src/github.com/go-ini/ini/parser.go:257-359 | a written entry, read where its key is new, puts exactly that entry into the section and consumes exactly its own text if and only if key and value meet their conditions |
| `IniRoundTrip.RoundTrip` | src/server-go/src/github.com/go-ini/ini/ini.go:404-528 | parsing the printed text gives back the same sections, keys, order and values, for every format and every mixture of quoting styles |
| `IniRoundTrip.ParsedIsNormal` | src/server-go/src/github.com/go-ini/ini/parser.go:246-361 | whatever the text, the document read has the default section first, distinct one-line section names, and distinct trimmed one-line keys in each section; so no other document can survive printing |
| `IniRoundTrip.ReadIsStable` | src/server-go/src/github.com/go-ini/ini/parser.go:246-361 | a document read from any text comes back from printing as soon as its keys and values can be written |
| `IniRoundTrip.SaveAndLoad` | src/server-go/src/github.com/go-ini/ini/ini.go:404-528 | writing a file and reading the text into a new one restores its contents |

## Left out

- AES-192 and AES-256.
- AesModes.CbcEncryptBuffer: demands an initial vector, since the code dereferences the pointer without a check, and room for all it touches.
- AesModes.CbcDecryptBuffer: likewise.
- AesModes.CbcBothWays: likewise.
- AesPadding.AesDecrypt: demands a result buffer of a block, and in fill mode a last byte to read.
- `simple_hash` and the module that only XORs bytes: the same packet layout with less to prove.
- Cryptographic strength, randomness and authentication against an adversary.
- `malloc`/`free` ownership across the module API, and finding a list node from its data pointer by a cast: nodes are identified directly.
- The `WaitGroup` counter of a session, whose `Add` follows the `go` statements; `Finished` says that the three workers are done.
- `Worker.Stop`, which nothing calls.
- Re-acquiring the caller's own lock at the end of a condition-variable wait, and failures of the Windows calls.
- `reconstruct_one` of the pool, which re-runs a constructor in place.
- Socket set-up, `select`, `accept`, name resolution, loading of modules, logging and daemon code.
- `passData` and the Windows versions of the socket loops.
- The thread pool of the C++ client, which the build disables.
- In the INI library: the options (case folding, boolean keys, shadows, raw sections, ignoring continuations or comments), comments, `keysHash`, `%(name)s` substitution, typed getters, reflection, key objects that outlive their section. A line whose key is "-" is numbered as the parser does, but printing such keys back is not covered.
- IniPrinter.WriteToIndent: does not write comments or the "-" of numbered keys, since the model's files hold neither.
- IniRoundTrip.ReadIsStable: is about sections, keys, order and values; the comments of the text read are not followed.
- IniRoundTrip.RoundTrip: its conditions on the shape of the document are necessary by `ParsedIsNormal`, and those on each entry are exact for its own lines by `EntryBackExactly`; that a document with bad entries never comes back, the entries undoing each other's damage, is not claimed.
