# PhantomDrive: a verified model of the firmware core

PhantomDrive is a USB drive with a hidden, encrypted volume. While it is locked it shows only the first
`LOCKED_SECTORS` of its SD card (the decoy). The user unlocks it by saving a text file that holds
`password:` and a password; the firmware finds the password in the stream of written sectors, replaces it
by zero bytes before anything reaches the card, derives two keys from it, and re-enumerates with the hidden
volume, which it encrypts with AES-XTS.

This project models the five cores of that firmware and the properties that hold across them.

* **Hash and key derivation** (`Sha256Spec`, `Sha256Meaning`, `Sha256Sample`, `Sha256`, `KdfSpec`,
  `KdfMeaning`, `Kdf`). The buffered SHA-256 context, the cached HMAC states and the in-place PBKDF2 loop are
  proved equal to the one-shot definitions of FIPS 180-4 (sections 5.1.1 and 6.2.2), RFC 2104 (section 2) and
  RFC 8018 (section 5.2), for every message, every way to cut it, every key and every number of rounds. The
  definitions themselves are pinned from outside: the constants are the fractional roots of the first primes,
  the bitwise functions choose and decide by majority, the digest of "abc" is the standard's, the derived key
  is the exclusive or over the HMAC chain.
* **The write-stream snooper** (`SnoopSpec`, `ScrubMeaning`, `SnoopChunks`, `Snooper`, `UnlockFile`). The loops
  over static variables and buffers are proved against a byte-at-a-time machine. The machine in turn is proved exact:
  it zeroes the bytes of values and no others, its counter is the longest match, cutting a stream into
  buffers changes nothing but one named case of the lock state, and the file with the scrubbed password is
  recognised again.
* **The READ(10) ring** (`ReadRingSpec`, `ReadPipe`). A step system of a polling loop and two DMA engines,
  with safety and refinement for every interleaving, absence of stuck states, and the loops themselves with
  total correctness under fair hardware.
* **XTS and the write path** (`XtsSpec`, `XtsMeaning`, `Xts`, `CardSpec`, `WritePath`, `RoundTrip`). The
  batched in-place passes equal XTS block by block (IEEE Std 1619-2007, sections 5.1 to 5.4), with the
  enciphered address of each sector as its tweak, which no two sectors share. A WRITE(10), cut into chunks
  over two buffers, leaves the scrub or the encryption of the whole stream on the card, exactly if all of it
  lies on the card and the card accepts it; what is written is what is read.
* **The lock across interrupts and main loop** (`BotSpec`, `Bot`). Interrupt handlers, main loop, unlock and
  host as interleaved steps over the shared state, with the opcode, the status and short responses all in
  one 31-byte buffer. Any command on a drive at rest is followed from its bytes to its data, sense data and
  status. Every run keeps locked reads in the decoy, pairs statuses with commands, never moves
  the lock back and derives keys at most once. The two keys are those of `KdfSpec`.
* **Whole operations** (`Unlocking`, `Reading`). One theorem over command layer, write path, snooper, file
  recognition and key derivation: a password file written to a locked drive, in however many chunks, unlocks
  it with the keys of exactly that password. One theorem over command layer and read ring: a READ(10) hands
  the host exactly the sectors it may see.

`Bytes` and `Memory` hold the machine types and `memset`/`memcpy`; `Lock` holds the lock state.
`dafny verify dfyconfig.toml` checks the whole project.

Reading order for the main results: `Sha256.Context.Final`, `Kdf.DeriveKey`; `ScrubMeaning.ScanFrom`,
`SnoopChunks.ChunkIndependence`, `UnlockFile.FileRoundTrip`; `ReadRingSpec.RingSafety`,
`ReadRingSpec.RingRefinement`, `ReadPipe.ReadPipe.ReadStream`; `Xts.XtsBuf`, `WritePath.WritePath.WriteStream`,
`RoundTrip.WriteThenRead`; `Bot.Bot.ExecuteCommand`, `Bot.Bot.Run`; `Unlocking.SavePassword`,
`Unlocking.SaveLine`, `Reading.ReadSectors`.

Three findings about the code:

* Cutting a stream into two buffers can leave the drive unlock-pending although one buffer would not have:
  a buffer that ends inside a value sets the lock state at once, and nothing takes it back if the value
  turns out to be empty. `SnoopChunks.ChunkIndependence` says exactly for which streams,
  `SnoopChunks.LockStateCanDiffer` gives an instance. The captured length is then 0, so no unlock is tried.
* A saved password of 0 bytes, or of more than 128, is scrubbed but its file is never recognised:
  `UnlockFile.FileAccepted` gives the exact range, `UnlockFile.EmptyPasswordRejected` and
  `UnlockFile.LongPasswordRejected` are instances. A long password still unlocks the drive when time is up,
  with its first 128 bytes (`Bot.Bot.CommitUnlock`). A shorter one whose capture ran on beyond its file gives
  other keys then, unless the file is found (`Unlocking.KeptIsPassword`).
* Not every command gets a status. A supported one without a data phase that ends FAILED is left with its
  status owed and nothing stalled: a READ(10) beyond the decoy, a MODE SENSE(10) for one page, or a MODE SENSE
  that keeps the bad status of the command before it. `Bot.Bot.ExecuteCommand` proves that exactly these get
  none (`Bot.Bot.Unanswered`), and `Bot.Bot.UnansweredInstance` is an instance. With a data phase such a
  MODE SENSE hands over its data and then reports the old status as its own.

## Model

| member | source | states |
|---|---|---|
| Sha256Spec.PadIsFips | src/crypto.c:126-144 | padding is the message, 0x80, the least number of zeros that reaches 56 mod 64, and the bit length, for messages short enough for a 64-bit length |
| Sha256Spec.PadZerosIsLeast | src/crypto.c:136-138 | the number of zero bytes is the least one with which marker and message end at 56 mod 64 |
| Sha256Spec.HashOneMore | src/crypto.c:115-117 | hashing one block more is one compression of the state reached so far |
| Sha256Spec.BigEndianRoundTrip | src/crypto.c:140-144 | the eight length bytes read back as the number they came from |
| Sha256Meaning.ChChooses | src/crypto.c:28-37 | Ch takes the bit of the second word where the first is set and that of the third elsewhere |
| Sha256Meaning.MajDecides | src/crypto.c:28-37 | any two equal arguments of Maj decide it |
| Sha256Meaning.MajBitwise | src/crypto.c:28-37 | Maj looks at each bit by itself |
| Sha256Meaning.InitialHash | src/crypto.c:86-94 | the eight initial words are the first 32 fractional bits of the square roots of the first eight primes |
| Sha256Meaning.RoundConstants | src/crypto.c:9-26 | the 64 round constants are those of the cube roots of the first 64 primes |
| Sha256Sample.DigestOfAbc | src/crypto.c:28-161 | the digest of "abc" is the 32 bytes that FIPS 180-4 gives for it, computed word by word and round by round |
| Sha256.EP0 | src/crypto.c:28-84 | the shift form of the first rotation mix is three right rotations |
| Sha256.EP1 | src/crypto.c:28-84 | the same for the second mix of the rounds |
| Sha256.SIG0 | src/crypto.c:28-84 | the same for the first mix of the message schedule |
| Sha256.SIG1 | src/crypto.c:28-84 | the same for the second mix of the message schedule |
| Sha256.ExpandSchedule | src/crypto.c:28-84 | the 64-word array holds the schedule of FIPS 180-4, 6.2.2 |
| Sha256.MixRounds | src/crypto.c:28-84 | the loop over eight rotating variables is 64 rounds |
| Sha256.Context.constructor | src/crypto.c:86-94 | a fresh context has absorbed the empty message |
| Sha256.Context.Transform | src/crypto.c:28-84 | the state becomes the compression of the old state with the block |
| Sha256.Context.Update | src/crypto.c:96-124 | after an update the context has absorbed the old message followed by the data, however both lie across blocks |
| Sha256.Context.FillPartialBlock | src/crypto.c:101-113 | bytes that complete a buffered block are compressed with it, fewer stay buffered |
| Sha256.Context.AbsorbBlocks | src/crypto.c:115-123 | full blocks are compressed and the remainder is buffered |
| Sha256.Context.FeedZeros | src/crypto.c:133-138 | the padding loop ends, with exactly the marker and the least number of zeros absorbed |
| Sha256.Context.FeedLength | src/crypto.c:140-144 | exactly the eight big-endian length bytes are absorbed |
| Sha256.Context.Final | src/crypto.c:126-153 | the output is the FIPS 180-4 digest of everything absorbed before, and only the first 32 bytes of the output change |
| Sha256.Context.RestoreHmacState | src/crypto.c:195-201 | a cached state with the forged length of 64 stands for any 64-byte block that leads to it |
| Sha256.WriteHash | src/crypto.c:146-152 | the eight words are written most significant byte first |
| Sha256.TotalLength | src/crypto.c:99-128 | a counter modulo 2^64 and the length made from it agree with the message length |
| Sha256.AbsorbTail | src/crypto.c:101-123 | the context invariant (fold over full blocks, tail in the buffer) is kept by bytes that at most fill a block |
| KdfMeaning.EmptyKey | src/crypto.c:169-193 | an empty key leaves the bare pads, 64 times 0x36 inside and 64 times 0x5c outside |
| KdfMeaning.ZeroFilledKey | src/crypto.c:169-193 | a short key and the same key with a zero byte behind it give the same HMAC |
| KdfMeaning.LongKey | src/crypto.c:169-193 | a key of more than 64 bytes counts as its digest |
| KdfMeaning.PadBytes | src/crypto.c:169-193 | each byte of the pads is that of the key against 0x36 and 0x5c |
| KdfMeaning.FirstBlock | src/crypto.c:223-242 | one round is the HMAC of the salt and the big-endian number 1 |
| KdfMeaning.KeyIsXorOfChain | src/crypto.c:223-242 | for any number of rounds the key is the exclusive or over a chain of HMACs, each of the one before, the first of salt and block number |
| Kdf.HashInPieces | src/crypto.c:155-161 | for every way to cut a message into updates the digest is that of the concatenation |
| Kdf.Sha256Hash | src/crypto.c:155-161 | the one-call hash is the digest |
| Kdf.HmacInit | src/crypto.c:169-193 | both cached states are those after the inner and the outer pad, for keys of any length, although the second pad is made from the first |
| Kdf.BlockState | src/crypto.c:184-186 | the cached state is the one after exactly the given block |
| Kdf.HmacSha256 | src/crypto.c:203-221 | from the cached states: HMAC of RFC 2104 over data and suffix, also when the output is the input |
| Kdf.DeriveKey | src/crypto.c:223-242 | the key is T_1 of RFC 8018 for any password, salt and number of rounds, although one buffer holds both sides of every round |
| Kdf.XorInto | src/crypto.c:239-240 | the running key is xored with the round's block, in place |
| Kdf.CryptoUnlock | src/phantomdrive_aes_xts.c:28-34 | data key from the salt as found, tweak key from the incremented salt, which is how the salt is left |
| SnoopSpec.RunSplit | src/phantomdrive.c:189-205 | scanning a + b is scanning a and then b |
| SnoopSpec.RunValue | src/phantomdrive.c:216-231 | the first 128 bytes of a value are kept, its length saturates at 129, all its bytes are zeroed |
| SnoopSpec.TwoCalls | src/phantomdrive.c:246-259 | two calls on adjacent buffers leave bytes, captured password, length, place, partial flag and match length as one call does, from every state |
| SnoopChunks.ChunkIndependence | src/phantomdrive.c:246-259 | the same, and the lock state differs exactly if the drive is not pending, a complete prefix ends at the cut, and in the whole stream no value has a byte or is left open; then the captured length is 0 |
| SnoopChunks.PendingMeans | src/phantomdrive.c:145-244 | a drive that was not pending becomes so exactly by a byte of a value |
| SnoopChunks.OpenIsPending | src/phantomdrive.c:236-241 | every call that leaves a value open leaves the drive pending |
| SnoopChunks.LockStateCanDiffer | src/phantomdrive.c:236-241 | an instance of that difference: the prefix ends one sector, a terminator starts the next |
| SnoopSpec.SecondBuffer | src/phantomdrive.c:233-242 | entering a buffer with an open value and the pending state set changes nothing but the pending state |
| SnoopSpec.NotPendingIsEmpty | src/phantomdrive.c:145-157 | a drive that is not pending and has no open value has no captured password |
| SnoopSpec.OpenCaptureIsKept | src/phantomdrive.c:145-187 | a value with captured bytes makes the drive pending or stays open |
| ScrubMeaning.LongestMatchStep | src/phantomdrive.c:197-205 | falling back to 1 or 0 keeps the longest match, and the prefix is complete exactly when one ends there |
| ScrubMeaning.ScanFrom | src/phantomdrive.c:159-244 | wherever a buffer is entered, also inside an open value or in the middle of a match: the machine stands inside a value exactly if the stream does, otherwise its counter is the longest proper prefix that the stream ends with; the zeroed bytes are exactly the value bytes, the continued value included |
| ScrubMeaning.ScanExact | src/phantomdrive.c:189-244 | the same for a stream that is scanned from its start |
| ScrubMeaning.ScrubGoesOn | src/phantomdrive.c:246-259 | scrubbing two buffers in turn is scrubbing their concatenation |
| ScrubMeaning.ScrubLeavesNoValue | src/phantomdrive.c:159-259 | a scrubbed buffer holds no value byte by itself, whatever came before it |
| ScrubMeaning.ScrubIdempotent | src/phantomdrive.c:159-259 | snooping the result of any snoop again from a fresh matcher changes no byte |
| Snooper.Snooper.ClearPendingPassword | src/phantomdrive.c:31-37 | nothing is captured or matched; the recorded place and the lock state stay |
| Snooper.Snooper.FinishPasswordSnoop | src/phantomdrive.c:145-157 | an empty value is forgotten, any other makes the drive unlock-pending |
| Snooper.Snooper.TrimPassword | src/phantomdrive.c:106-107 | the length that a found file gives is a state that later snoops start from, although the buffer beyond it is not wiped |
| Snooper.Snooper.ContinuePartialPassword | src/phantomdrive.c:159-187 | takes up an open value exactly as the machine does, up to its terminator or the end of the buffer |
| Snooper.Snooper.CaptureByte | src/phantomdrive.c:159-187 | one more byte of an open value, as far as buffer and saturating length go |
| Snooper.Snooper.FindValueEnd | src/phantomdrive.c:216-224 | the value ends at the first terminator, or with the buffer |
| Snooper.Snooper.TakeValue | src/phantomdrive.c:226-234 | the value is captured and zeroed in place, nothing else changes |
| Snooper.Snooper.CaptureNewValue | src/phantomdrive.c:207-234 | the old capture is forgotten; place, value and length of the new one are recorded |
| Snooper.Snooper.TakePassword | src/phantomdrive.c:207-243 | a complete prefix and its value leave what the machine leaves |
| Snooper.Snooper.MatchByte | src/phantomdrive.c:197-205 | one comparison advances, restarts or completes the match as the machine does |
| Snooper.Snooper.SnoopNewPassword | src/phantomdrive.c:189-244 | the whole search over a buffer equals the machine's run |
| Snooper.Snooper.SnoopWrite | src/phantomdrive.c:246-259 | one call equals the machine's call: buffer, static variables, next address; bytes beyond the length stay, and the drive does not become unlocked |
| UnlockFile.MatchesScrubbedPassword | src/unlock_file.c:63-92 | accepts exactly the files that hold the prefix and a zeroed value of 1 to 128 bytes there, properly ended, and returns the captured length cut at end of file |
| UnlockFile.OnlyValueCaptured | src/phantomdrive.c:189-244 | place, bytes and saturated length recorded for the only value of a stream |
| UnlockFile.OnlyValueScrubbed | src/phantomdrive.c:189-244 | the file around that value in its scrubbed form |
| UnlockFile.FileRoundTrip | src/unlock_file.c:63-92 | a file of at most 256 bytes with one password of 1 to 128 bytes is accepted once scrubbed; place, exact length and bytes of the password come back, however far the capture ran beyond the file |
| UnlockFile.FileRejected | src/unlock_file.c:74-78 | an empty password or one of more than 128 bytes is never accepted |
| UnlockFile.FileAccepted | src/unlock_file.c:63-92 | the scrubbed file is accepted if and only if its password has 1 to 128 bytes |
| UnlockFile.OneLineCaptured | src/phantomdrive.c:189-244 | spelled in bytes: a sector with "password:", 1 to 128 bytes other than LF, CR and zero, and LF, CR LF, CR or zero behind them is captured with exactly these bytes, length and place, and recognised once scrubbed |
| UnlockFile.OneLineAccepted | src/unlock_file.c:63-92 | after power-up, such a line with any of the four line ends is recognised again if and only if it has 1 to 128 bytes |
| UnlockFile.EmptyPasswordRejected | src/unlock_file.c:77-78 | an instance: a line without a password |
| UnlockFile.LongPasswordRejected | src/unlock_file.c:77-78 | an instance: a line with 129 bytes |
| XtsSpec.OverBlock | src/phantomdrive_aes_xts.c:48-114 | block k of a pass depends on block k of the input and its index only |
| XtsSpec.ThreePasses | src/phantomdrive_aes_xts.c:94-105 | xor, block operation and xor over a whole buffer are XTS on every block |
| XtsSpec.XtsSplit | src/phantomdrive_aes_xts.c:87-110 | XTS of a + b is XTS of a and XTS of b at the address that follows, so batch boundaries do not matter |
| XtsSpec.XtsRoundTrip | src/phantomdrive_aes_xts.c:116-124 | if the engine's decryption inverts its encryption, decrypting any run of sectors of an encrypted buffer gives those sectors |
| XtsMeaning.TweakIsEncipheredAddress | test/xts_test.c:37-42 | the tweak of a sector is the cipher of 8 zero bytes, the big-endian LBA and 4 zero bytes, for an engine that holds blocks in reverse byte order |
| XtsMeaning.TweaksDiffer | src/phantomdrive_aes_xts.c:63-79 | if the engine encrypts tweaks injectively, two sectors with the same tweak are the same sector |
| XtsMeaning.XtsBlockIs | src/phantomdrive_aes_xts.c:81-114 | a stored block, as IEEE Std 1619-2007 writes it: enciphered between two xors with the sector tweak times a power of alpha |
| XtsMeaning.MulAlphaIsTimesX | src/phantomdrive_aes_xts.c:36-46 | the step from one block tweak to the next is multiplication by x modulo x^128 + x^7 + x^2 + x + 1, coefficient by coefficient |
| Xts.XtsMulAlpha | src/phantomdrive_aes_xts.c:36-46 | the shift over four 32-bit registers is multiplication by alpha on the 16 bytes |
| Xts.MulAlphaWords | src/phantomdrive_aes_xts.c:36-46 | the register form and the byte form of that multiplication agree |
| Xts.XorBlock | src/phantomdrive_aes_xts.c:54-57 | four word operations are a bytewise xor of the block |
| Xts.XorSector | src/phantomdrive_aes_xts.c:48-61 | block j of the sector is xored with alpha^j times the tweak, nothing else changes |
| Xts.XtsNormalizeTweak | src/phantomdrive_aes_xts.c:17-26 | the 16 bytes are reversed in place |
| Xts.SelfDma | src/phantomdrive_aes_xts.c:102-102 | the engine's in-place run is its block operation on every block of the range |
| Xts.XtsMakeTweaks | src/phantomdrive_aes_xts.c:63-79 | entry i is the tweak of sector sd_lba + i |
| Xts.XorSectors | src/phantomdrive_aes_xts.c:94-95 | the loop over a batch is the whitening pass over all its blocks |
| Xts.XtsBatch | src/phantomdrive_aes_xts.c:92-105 | one batch becomes its XTS |
| Xts.XtsBuf | src/phantomdrive_aes_xts.c:81-114 | for any sector count the buffer becomes XTS of those sectors at their own addresses, bytes around them stay |
| CardSpec.RunIgnoresPending | src/phantomdrive.c:189-244 | the lock state on entry has no influence on bytes or captures |
| CardSpec.CallAnnounces | src/phantomdrive.c:145-259 | a captured password goes with a pending drive, and every call keeps it so |
| CardSpec.SnoopChunk | src/msc_write.c:115-146 | snooping the next chunk appends to what snooping the stream so far gave |
| CardSpec.ScrubbedChunk | src/msc_write.c:82-93 | a snooped chunk is the part of the scrub of the whole stream, and the snooper stands where that scrub stands |
| CardSpec.EncryptedChunk | src/msc_write.c:94-98 | a chunk encrypted at its own address is the part of the encryption of the whole stream |
| CardSpec.CommittedExtend | src/msc_write.c:126-146 | storing the next treated chunk extends the stored stream |
| CardSpec.TreatedPrefix | src/msc_write.c:82-100 | treating a longer stream does not change what was made of its start |
| WritePath.WritePath.WriteChunkToSd | src/msc_write.c:14-43 | succeeds exactly if the chunk is empty, or lies on the card and the card accepts it; then exactly its sectors change; a chunk beyond the card is refused and changes nothing |
| WritePath.WritePath.CardWrite | src/msc_write.c:33-33 | the assumed card driver, with its answer as an input: success writes all sectors, failure changes nothing outside them |
| WritePath.WritePath.AlternateWriteBuf | src/msc_write.c:45-48 | the next chunk is received in a buffer that differs from the one in use |
| WritePath.WritePath.ReceiveChunk | src/msc_write.c:50-80 | the buffer holds the chunk's sectors in order, the first packet of the stream included |
| WritePath.WritePath.WriteReceivedChunk | src/msc_write.c:82-100 | locked: the snooped chunk goes to the host's address; unlocked: the encrypted chunk goes to the shifted address; it is stored exactly if it lies on the card there and is accepted |
| WritePath.WritePath.StoreChunk | src/msc_write.c:126-131 | keeps: the sectors so far are on the card as the treatment of the whole stream makes them |
| WritePath.WritePath.WriteStream | src/msc_write.c:110-156 | the whole stream is stored exactly if every chunk lies on the card and is accepted: then the card holds its scrub or its encryption and nothing else has changed; otherwise exactly the chunks before the first refused one are stored, only that one is unknown, and the status is FAILED |
| WritePath.PhysicalAdvance | src/emmc_ops.h:10-15 | the physical address of a later sector is that of the first plus the distance |
| RoundTrip.WithinCapacity | src/emmc_ops.h:10-15 | inside the reported capacity physical addresses lie on the hidden part of the card |
| RoundTrip.UnlockedReadBack | src/msc_read.c:72-189 | every sector read from an unlocked drive is the one that was written there |
| RoundTrip.LockedReadBack | src/msc_read.c:72-189 | every sector read from a locked drive is that of the scrubbed stream, also if the write went on with a value that an adjacent write had left open |
| RoundTrip.WriteThenRead | src/msc_write.c:110-156 | on an unlocked drive: a write within the reported capacity succeeds exactly if the card accepts every chunk; then a read of any range inside it gives the host the plaintext, and sectors outside the write are unchanged |
| ReadRingSpec.SlotsDiffer | src/msc_read.c:39-60 | fewer than 60 consecutive sectors are in different slots |
| ReadRingSpec.HardwareKeepsInv | src/msc_read.c:94-153 | every hardware event keeps the pipeline invariant |
| ReadRingSpec.QueueKeepsInv | src/msc_read.c:102-120 | queueing a sector keeps it |
| ReadRingSpec.TakeKeepsInv | src/msc_read.c:125-141 | taking a block, with the decision to go on or to pause, keeps it |
| ReadRingSpec.CpuKeepsInv | src/msc_read.c:94-181 | every step of the loops keeps it |
| ReadRingSpec.RunInv | src/msc_read.c:72-189 | it holds after every sequence of events |
| ReadRingSpec.RingSafety | src/msc_read.c:94-153 | in every reachable state the slot being filled is neither in flight nor holds a completed sector that waits, and the card is never more than 58 sectors ahead of USB |
| ReadRingSpec.RingRefinement | src/msc_read.c:72-189 | in every reachable state the sectors queued to USB are the first ones of the read, each once, in order, decrypted under its own address; at the end all n |
| ReadRingSpec.WorkStep | src/msc_read.c:94-181 | every step does one piece of the remaining work or none, hardware completions always one |
| ReadRingSpec.NeverStuck | src/msc_read.c:94-181 | with idle hardware the loops do a piece of the work within four steps |
| ReadPipe.ReadPipe.QueueUsbReadSector | src/msc_read.c:62-70 | keeps the invariant and reduces the work |
| ReadPipe.ReadPipe.TakeCompletedBlock | src/msc_read.c:125-141 | keeps the invariant and reduces the work |
| ReadPipe.ReadPipe.TakeLastCompletedBlock | src/msc_read.c:142-152 | keeps the invariant on the way to the drain loop |
| ReadPipe.ReadPipe.Turn | src/msc_read.c:94-153 | one turn of the main loop reduces the work or the hardware's patience |
| ReadPipe.ReadPipe.Interfere | src/msc_read.c:94-153 | any number of hardware events between two polls keep the invariant and never add work |
| ReadPipe.ReadPipe.DrainTurn | src/msc_read.c:156-177 | the same for the drain loop |
| ReadPipe.ReadPipe.ReadStream | src/msc_read.c:72-189 | the loops end, and the host has exactly the n sectors of the read |
| Bot.Bot.constructor | src/phantomdrive.c:39-58 | after power-up the drive is locked, at rest, with nothing derived, and every invariant holds |
| BotSpec.CbwRoundTrip | src/bot.c:47-119 | signature, tag, length, direction, opcode, address and block count are read from a command as a host writes them, byte by byte |
| BotSpec.CapacityMeans | src/bot.c:140-149 | READ CAPACITY reports the last address and a block length of 512 |
| BotSpec.FormatCapacityMeans | src/bot.c:130-138 | READ FORMAT CAPACITIES reports the same capacity, with the right list length |
| BotSpec.ModeSense6Means | src/bot.c:176-183 | so does MODE SENSE(6), with the right data length |
| BotSpec.ModeSense10Means | src/bot.c:185-199 | so does MODE SENSE(10) |
| BotSpec.RequestSenseMeans | src/bot.c:201-224 | sense key and code of the command before lie at bytes 2 and 12 of 18, with the right additional length |
| Bot.Bot.StallActiveDataEndpoints | src/bot.c:27-37 | afterwards neither direction is active, and exactly the endpoints that were active are stalled |
| Bot.Bot.BeginCbwTransfer | src/bot.c:47-68 | tag, little-endian length and direction come from the command |
| Bot.Bot.CopyResponse | src/bot.c:79-89 | at most as many bytes as the host asked for overwrite the shared buffer |
| Bot.Bot.PutBigEndian32 | src/bot.c:130-148 | the four bytes read back as the value, most significant byte first |
| Bot.Bot.AccessesHiddenSectors | src/bot.c:91-102 | the overflow-free check is exactly "some sector lies at or beyond LOCKED_SECTORS" |
| Bot.Bot.ParseRw10 | src/bot.c:104-119 | address and length are the big-endian fields of the CDB |
| Bot.Bot.HandleRead10 | src/bot.c:151-161 | a read that leaves the decoy of a locked drive is stalled and FAILED with LBA OUT OF RANGE, any other is accepted without sense data |
| Bot.Bot.HandleWrite10 | src/bot.c:163-174 | address and length of the write are parsed, nothing is refused, no sense data are left |
| Bot.Bot.HandleInquiry | src/bot.c:121-128 | the drive's 36 inquiry bytes are ready, cut to what the host asked for; no sense data |
| Bot.Bot.HandleReadFormatCapacity | src/bot.c:130-138 | the response with the current capacity is in the shared buffer, cut to the host's length; the opcode byte survives |
| Bot.Bot.HandleReadCapacity | src/bot.c:140-149 | the same for the last address of the current capacity |
| Bot.Bot.HandleModeSense6 | src/bot.c:176-183 | the same for MODE SENSE(6), with sense data and status left as they were |
| Bot.Bot.HandleModeSense10 | src/bot.c:185-199 | a request for one page is stalled and FAILED, one for all pages is answered; the opcode byte can be overwritten, though not by READ(10) |
| Bot.Bot.HandleRequestSense | src/bot.c:201-224 | the sense data of the command before are in the shared buffer over the opcode, unclamped, and stay as they were |
| Bot.Bot.HandleUnsupported | src/bot.c:255-261 | INVALID COMMAND and FAILED, with the IN endpoint stalled |
| Bot.Bot.HandleOther | src/bot.c:121-261 | each of the other commands leaves the sense data, status, direction and endpoint of its kind, and each query its response; whatever they write, the opcode byte does not become READ(10) |
| Bot.Bot.DispatchCommand | src/bot.c:263-326 | every command, by its bytes alone: sense data and status, data directions, stall, address and length of a READ or WRITE, the response of a query; the aliased opcode byte is READ(10) exactly if the incoming one was |
| Bot.Bot.DispatchScsi | src/bot.c:328-337 | the same with the signature check: a packet without signature leaves no command behind |
| Bot.Bot.RejectInvalidCbwSignature | src/bot.c:70-77 | both directions are stalled and the status is PHASE ERROR |
| Bot.Bot.HandleBulkIn | src/bot.c:339-349 | next response packet, read request, or status, and nothing when none is due |
| Bot.Bot.HandleBulkOut | src/bot.c:352-377 | first data packet or command; a command is counted once and answered or left pending |
| Bot.Bot.TakeCommand | src/bot.c:363-374 | a command that finds a transport without flags is counted once and taken up as its bytes say: status at once, status owed after a stall or in silence, a queued read, a write that waits, or the first packet of its response; a packet without signature stalls both endpoints |
| Bot.Bot.AnswerCommand | src/bot.c:365-374 | a dispatched command is answered, queued as a read, left to wait for data, or left owing a status; exactly one of these |
| Bot.Bot.AnswerOther | src/bot.c:365-374 | first packet of the response or, if it is PASSED, the status |
| Bot.Bot.SendResponseData | src/bot.c:379-396 | packets of at most 512 bytes, each with the front of the response; the data phase ends with the last one |
| Bot.Bot.SendCsw | src/bot.c:398-420 | the 13 status bytes are the signature USBS, the command's tag, no residue and the status; the command is over; the opcode byte survives |
| Bot.Bot.CompleteIn | src/bot.c:339-349 | in every reachable state the IN interrupt keeps the invariant and sends a status exactly if one is due |
| Bot.Bot.CompleteOut | src/bot.c:352-377 | in every reachable state the OUT interrupt keeps the invariant; what a command leaves is determined by the command |
| Bot.Bot.PollRead | src/bot.c:443-447 | a queued read is taken up, otherwise the loop goes on to writes |
| Bot.Bot.StartRead | src/msc_read.c:191-196 | the stream starts with the checked length at the physical address |
| Bot.Bot.StreamRead | src/msc_read.c:198-198 | a read executes under the lock state it was checked under |
| Bot.Bot.EndRead | src/msc_read.c:200-203 | the address advances modulo 2^32 and the status is queued |
| Bot.Bot.PollWrite | src/bot.c:449-452 | a queued write is taken up, otherwise the loop goes on to the unlock |
| Bot.Bot.StartWrite | src/msc_write.c:158-163 | the stream starts with the parsed length |
| Bot.Bot.StreamWrite | src/msc_write.c:167-167 | the outcome of the stream keeps lock, phases and accounts in order; only a locked drive can become unlock-pending |
| Bot.Bot.WriteResult | src/msc_write.c:128-131 | a failed stream sets MEDIUM ERROR and FAILED; a locked write may leave a captured password |
| Bot.Bot.EndWrite | src/msc_write.c:171-174 | the status of the write is queued |
| Bot.Bot.PollUnlock | src/bot.c:439-474 | an unlock is tried only while one is pending |
| Bot.Bot.BeginUnlock | src/phantomdrive.c:78-83 | without captured bytes nothing happens, otherwise the USB interrupt is turned off |
| Bot.Bot.RefusePackets | src/phantomdrive.c:84-85 | further OUT packets are refused while the transport is examined |
| Bot.Bot.CheckIdle | src/phantomdrive.c:86-87 | goes on only over an idle transport: no flag, no queued disk work, an empty IN endpoint and no pending interrupt, setup or reset; otherwise everything is resumed |
| Bot.Bot.ResumeUsb | src/phantomdrive.c:139-143 | an attempt that is given up leaves the transport as it was |
| Bot.Bot.SearchFile | src/phantomdrive.c:92-98 | goes on only if the file was found or time is up |
| Bot.Bot.CheckIdleAgain | src/phantomdrive.c:99-100 | the same after the disk has been searched |
| Bot.Bot.TrimPassword | src/phantomdrive.c:106-107 | the captured length becomes that of the file that was found |
| Bot.Bot.ComeBackPending | src/phantomdrive.c:111-115 | the drive returns to the bus, still pending, with nothing outstanding |
| Bot.Bot.ComeUpUnlocked | src/phantomdrive.c:117-137 | the drive returns unlocked, with its one derivation recorded |
| Bot.Bot.CommitUnlock | src/phantomdrive.c:102-143 | unlocked exactly if the file was deleted or time is up; then keys come from at most 128 captured bytes and the unmodified salt; otherwise the drive stays pending with the trimmed length |
| Bot.Bot.UnlockVolume | src/phantomdrive.c:117-125 | first and only derivation, wiped password, capacity of the hidden volume |
| Bot.Bot.DeriveKeys | src/phantomdrive_aes_xts.c:28-34 | both keys are RFC 8018 keys, from the salt as found and as incremented |
| Bot.Bot.ServeRead | src/msc_read.c:191-204 | the main loop serves a queued read: one logged read of its sectors under one lock state, then its status |
| Bot.Bot.ServeWrite | src/msc_write.c:158-175 | the main loop serves a queued write: its outcome decides status, sense data and lock state |
| Bot.Bot.SettleTransport | src/bot.c:422-437 | once the host has taken the status of its last command the transport is idle |
| Bot.Bot.ReachSearch | src/bot.c:458-474 | a pending drive with an idle transport and a captured password gets as far as the search for the file |
| Bot.Bot.FinishUnlock | src/phantomdrive.c:92-143 | for every outcome of search, deletion and clock: unlocked exactly if the file was found and deleted or time is up, with keys from the first bytes of the buffer (as many as the file's password has, if it was found) and the device's salt; otherwise still pending |
| Bot.Bot.FetchStatus | src/bot.c:339-349 | after a stall has been cleared the host gets the status that is owed |
| Bot.Bot.ExecuteRead10 | src/bot.c:151-161 | a whole READ(10) with a data phase, of whatever length, on a drive at rest: refused with FAILED and nothing read, exactly if it leaves the decoy of a locked drive; otherwise exactly its sectors are read once, with status PASSED |
| Bot.Bot.ExecuteWrite10 | src/msc_write.c:158-175 | a whole WRITE(10) with a data phase: the status is PASSED exactly if the stream reached the card, and the sense data are MEDIUM ERROR and WRITE ERROR otherwise |
| Bot.Bot.ExecuteWithoutData | src/bot.c:352-377 | a whole command without a data phase, or with one that is refused: its status comes at once or after the stall, unless it is Unanswered |
| Bot.Bot.UnansweredInstance | src/bot.c:185-199 | an Unanswered command: MODE SENSE(10) for one page with no data phase |
| Bot.Bot.TakeData | src/bot.c:379-396 | a host that takes every packet gets as many bytes as the data phase has, and then the one status |
| Bot.Bot.ExecuteDataIn | src/bot.c:121-261 | a whole query: the host gets the response for the current capacity or the sense data from before, as much as there is and it asked for, and its one status |
| Bot.Bot.ExecuteCommand | src/bot.c:263-377 | any well-formed command on a drive at rest: its sense data, its data, the read it executes if it is one, and its one status, except exactly for the Unanswered commands, which get none |
| Bot.Bot.ReadCapacity | src/bot.c:140-149 | a whole READ CAPACITY(10): the last address is that of the decoy on a drive that is not unlocked and that of the hidden volume otherwise, the block length 512, the status PASSED |
| Bot.Bot.AskWhyRefused | src/bot.c:151-224 | two whole commands: after a refused READ(10), REQUEST SENSE gives the host ILLEGAL REQUEST, LBA OUT OF RANGE, and nothing has been read |
| Bot.Bot.MainStep | src/bot.c:439-475 | every step of the main loop keeps the invariant and undoes nothing |
| Bot.Bot.Step | src/bot.c:339-475 | so does every event, in any order |
| Bot.Bot.Run | src/bot.c:339-475 | in every run: locked reads stay in the decoy and each read runs under the lock state it was checked under; the i-th status answers the i-th accepted command with its tag; the lock never goes back; keys are derived at most once, from at most 128 bytes and the device's salt; unlocked means no password left and the capacity of the hidden volume |
| Unlocking.StoreStream | src/msc_write.c:110-175 | command, stream and status of one WRITE(10) together: stored and PASSED exactly if every chunk lies on the card and is accepted; then card and snooper are as `WritePath` says, and the main loop has the snooper's capture |
| Unlocking.ServeStream | src/msc_write.c:158-175 | the main loop's part of it |
| Unlocking.FileStored | src/unlock_file.c:63-92 | after that write the file on the card, read from the recorded sector, is one that the unlock accepts |
| Unlocking.FindFile | src/phantomdrive.c:92-94 | reading the file at the recorded sector gives the password's exact length |
| Unlocking.KeptIsPassword | src/phantomdrive.c:216-233 | the bytes that a capture keeps are the password exactly if the value ends where the password does, or the password fills the buffer |
| Unlocking.UnlockWith | src/phantomdrive.c:78-143 | a poll on an idle drive with a captured password, for every outcome of search, deletion and clock |
| Unlocking.SavePassword | src/phantomdrive.c:78-143 | the whole way: a file with one password of 1 to 128 bytes is saved in one WRITE(10) to a locked drive at rest. The write is stored exactly if the card takes all of it. Once it is, if the volume can be mounted, the drive unlocks once the file is deleted or time is up, with the keys of RFC 8018 for exactly that password and the device's salt, and otherwise stays pending with that password's length. If it cannot, the drive unlocks when time is up, with the keys of the bytes that the capture kept, and otherwise stays pending |
| Unlocking.SaveLine | src/phantomdrive.c:78-143 | the same spelled in bytes, for one sector that reads "password:", 1 to 128 bytes of text and any of the four line ends: the drive unlocks under exactly this text |
| Unlocking.LineIsPasswordFile | src/phantomdrive.c:189-244 | such a sector is a password file, whose kept bytes are the text |
| Reading.ShownSector | src/msc_read.c:191-204 | within reach a job's sector is the card's own at that address, or the decrypted one of the hidden volume |
| Reading.StreamJob | src/msc_read.c:72-189 | the ring hands the host exactly the sectors of the job, and can stream another |
| Reading.ServeThroughRing | src/msc_read.c:191-204 | the main loop's read and the ring together: the host gets the queued read's sectors, then its status |
| Reading.ReadSectors | src/bot.c:151-161 | one READ(10) from command to data: refused, the host gets nothing and FAILED; otherwise it gets exactly the sectors shown at its addresses, in order, and on a locked drive all of them below LOCKED_SECTORS |

## Left out

- The AES engine: `enc`, `dec` and `tweak` are arbitrary functions, with `dec` inverting `enc` where a round trip needs it; its registers and byte-order modes are not part of this model.
- Clock and timers: whether enough time has passed is an input of each step. A snooped buffer reads the clock once, where the firmware reads it at every new password; only the recorded start time is affected, and no property speaks of it beyond its being one of the two readings.
- Endpoint 0, USB reset handling beyond its flag, the device stack, FatFs, and the card driver: small contracts or inputs. Whether the card driver accepts a write is an input; a card write that reports success has written every sector, a failed one may have written anything within its own sectors.
- ReadRingSpec.RingSafety: the 60 slots are sectors of a ring value instead of a flat byte array, and DMA address registers are slot numbers.
- Bot.Bot.StreamWrite: in runs the effect of a write on the captured password is an arbitrary outcome; `Unlocking.StoreStream` ties it to the snooper for one whole WRITE(10). The card is not part of `Bot`.
- Bot.Bot.WriteResult: takes any captured bytes and length, for the same reason.
- Bot.Bot.StreamRead: only address, length and lock state are kept in runs; `Reading.ReadSectors` joins one whole READ(10) to the ring.
- Reading.ReadSectors: on an unlocked drive stated within the reported capacity, which the code does not check for reads.
- Bot.Bot.HostSendsData: the data phase of a write is its first packet. The rest is taken by the write stream; packets that a host still sends after a chunk has failed, or when its CBW announces more than its CDB, are not modelled.
- Bot.Bot.HandleRequestSense: the length of a REQUEST SENSE is not clamped, so its packets can reach beyond the shared buffer; bytes from there are arbitrary.
- Bot.Bot.SendResponseData: as in the code the response pointer does not advance, so every packet of a response starts at its front. The data of a command that is no query but has a data phase to the host (TEST UNIT READY, say) have only a length.
- Bot.Bot.HandleInquiry: the 36 bytes are an input whose first byte is zero; how vendor and product names get there is not part of this model.
- Bot.Bot.ExecuteCommand: an Unanswered command ends with its status owed; how a host resets such a transport is not part of this model.
- Bot.Bot.EndRead: queueing the status of a read and clearing the data-in flag after it are one step. The interrupt is already on in between, so a host that took the status and sent its next command within these two statements could lose that command's data-in flag; such a run is not covered.
- Malformed hosts: a new command before the status of the last one, a data direction that contradicts the CDB, and a READ or WRITE of no blocks with a data phase. Lengths in CBW and CDB may differ when a command is checked and dispatched; surplus data packets are covered by the line on `Bot.Bot.HostSendsData`.
- Bot.Bot.HostClearsHalt: whether the IN handler runs after a stall has been cleared is left open in runs; `Bot.Bot.FetchStatus` takes the case in which it does.
- Unlocking.FindFile: the search over directories and other files is not modelled.
- Unlocking.SavePassword: FatFs is not modelled; the file is taken to lie where its sector was written, as its first cluster. `Bot` and `WritePath` hold their own copies of the lock state, equal on entry.
- `LOCKED_SECTORS` is any positive number below the card size; writes are range-checked against the card only, so the decoy is stated for reads.
- RoundTrip.WriteThenRead: stated within the reported capacity, where the 32-bit physical address does not wrap; outside it the wrap is modelled but nothing is promised.
- Message lengths that do not fit 61 bits: the counter wraps as in the code, `Sha256Spec.PadIsFips` needs the length to fit.
- AES-CTR mode, SD card initialisation, the write profiler, disk I/O glue for the unlock file, `main.c`, host-side scripts and tests, hardware design files.
