# libk, verified

libk is a C library of ciphers, hashes, a parallel block-cipher engine and an encrypted resource
container. Several of its parts have a fast, stateful or concurrent form that has to agree with a
simple specification. This project models those parts in Dafny and proves the agreement for all
inputs and all runs:

- **Parallel block modes** (`Partition`, `Workbench`, `WorkbenchProofs`, `BlockModes`, `Parallel`,
  `ParallelRun`, `BcMode`). The job queue is an imperative class for its critical sections and a
  step system over all interleavings of lock, condition variables and sleeping threads. The block
  modes run over an abstract block cipher. Both are composed: whatever the threads do, a parallel
  update leaves the output and the IV of the sequential loop.
- **Byte streams over block modes and ARC4** (`Keystream`, `StreamCipher`, `Arc4`). Arbitrary
  chunking reads one keystream.
- **The pres container** (`PresFormat`, `PresFields`, `PresDisk`, `PresBooks`, `PresReplay`,
  `PresImage`, `PresGenuine`, `Pres`, `PresLife`, `PresRepack`). The disk has a write-back cache
  and an atomically replaced `.meta` file, any operation may fail, and a crash may strike between
  any two. The disk keeps a trace of all its states, so that a property of the trace is a property
  of every step of every run, and knows whether any system call has failed, so that failing
  without cause is excluded.
  `PresReplay` says what operations and their outcomes mean for the resources in a container;
  `Pres` and `PresLife` prove that this is what the ids and the closed file give access to, from
  creating a container over any run to opening the closed file, and on over any number of
  sessions. `PresGenuine` says, in raw bytes, which files opening accepts at all, and as what.
- **Kernels** (`Rotate`, `Threefish*`, `Skein*`, `Sha1*`, `Aes*`, `Mt19937`, `TwisterMatrix`).
  Unrolled or table-driven code against the published definitions. What code and definition have
  in common is stated once more in other terms: the S-box and the round constants of AES in
  GF(2^8), the tweak of Skein in bytes, the constants of SHA-1 as square roots, the tempering of
  the Mersenne Twister as a matrix with its inverse, the counter of CTR in numbers.

An update in place is a class or an array here; `method`s are proved against specification
functions, and the lemmas are about those. Where the code does not do what it is for, the code is
kept and a lemma or contract says exactly when it does: `BcMode.UpdateIsSequentialExactly`,
`Bytes.XorB64Exact`, `PresBooks.AppendExact`, `PresReplay.RetrievedExact`,
`PresFormat.NameRoundTrip`, `PresFormat.BasenameKept`, `PresImage.CloseThenOpen`,
`Pres.Container.LeftoverExact`, `PresDisk.RecoverableExactly`, `PresLife.CloseForGood`,
`PresLife.ReadErrorThenClose`, `PresLife.OneFile`, `PresRepack.ComparisonExact`,
`SkeinSpec.DigestBytesExact` and `Sha1.NextCountExact`. Three of them concern data: closing a new
container unlinks its file when it fails, so that the `.meta` file left behind is of no use; when
it works it drops the `.meta` file although header and table were never synced; and a read error
in `k_pres_add_file` is reported as success and can leave a container that does not open again.

`dafny verify dfyconfig.toml` checks the whole project.

## Model

| member | source | states |
|---|---|---|
| `Partition.DistributeWork` | src/blockcipher/blockcipher.c:52-81 | the parameter blocks are contiguous ranges that start where the one before ends, cover all blocks, and no participating worker but the first is without work |
| `Partition.StartOfAll` | src/blockcipher/blockcipher.c:46-50 | the shares of all workers add up to the block count |
| `Partition.OwnerExists` | src/blockcipher/blockcipher.c:46-81 | every block belongs to exactly one worker |
| `Workbench.Bench.CommitSection` | src/utils/workbench.c:150-160 | a commit is refused exactly when the queue is full, and otherwise appends one job and counts it as outstanding |
| `Workbench.Bench.TakeSection` | src/utils/workbench.c:58-68 | a worker waits, quits or takes the job committed last, exactly as njobs is zero, negative or positive |
| `Workbench.Bench.FinishSection` | src/utils/workbench.c:73-76 | a finished job is no longer counted as outstanding |
| `Workbench.Bench.DeleteSection` | src/utils/workbench.c:130-137 | deletion marks the queue and keeps the rest of the shared state |
| `WorkbenchProofs.StepKeepsInv` | src/utils/workbench.c:52-160 | every step of every thread, spurious wake-ups included, keeps the accounting invariant of the queue and of the sleep sets |
| `WorkbenchProofs.SafeOnEveryRun` | src/utils/workbench.c:57-77 | on every interleaving of every client program: the queue bounds hold, nworking counts queued and running jobs, and each committed job is queued, running or finished in exactly one of the three places |
| `WorkbenchProofs.JoinMeansFinished` | src/utils/workbench.c:122-128 | join and delete pass their test only when every committed job has finished, as often as it was committed |
| `WorkbenchProofs.NoJobRunsTwice` | src/utils/workbench.c:57-71 | although the queue is last in first out, no two workers run the same job |
| `WorkbenchProofs.NeverAllAsleep` | src/utils/workbench.c:57-77 | while jobs are outstanding some worker is awake: no wake-up is lost |
| `WorkbenchProofs.NoDeadlock` | src/utils/workbench.c:52-160 | until the client program is served some thread can take a step that is not a spurious wake-up |
| `WorkbenchProofs.StepDecreasesMeasure` | src/utils/workbench.c:52-160 | every step that is not a spurious wake-up decreases a measure |
| `WorkbenchProofs.RunsAreBounded` | src/utils/workbench.c:52-160 | for every run, spurious wake-ups included: the other steps and what is left of the measure are at most the measure at the start plus the spurious wake-ups |
| `WorkbenchProofs.StuckMeansServed` | src/utils/workbench.c:130-148 | a run that cannot continue has finished every job, and after deletion every worker has exited |
| `BlockModes.RunSplit` | src/blockcipher/blockcipher.c:479-481 | a run over two block lists is a run over the first and then over the second from the IV it left |
| `BlockModes.CallsAreOneRun` | src/blockcipher/blockcipher.c:466-482 | any split of the blocks into update calls gives the output of one call |
| `BlockModes.DecryptInvertsEncrypt` | src/blockcipher/modes/cbc.c:15-38 | for every block list and every split into calls, decryption restores the input and leaves the same IV: CBC and ECB given an inverse block transform, CFB, OFB, CTR and NOOP with the forward transform alone |
| `BlockModes.IvAtDirect` | src/blockcipher/modes/cbc.c:40-48 | in a parallelizable direction the IV in front of block k is known without running the blocks before it |
| `BlockModes.CtrAddSum` | src/blockcipher/modes/ctr.c:16-33 | advancing the wrapping little-endian counter in the last eight bytes by m and then by n is advancing it by m + n; `CtrAddNumber` says in numbers what advancing is |
| `BlockModes.CtrAddNumber` | src/blockcipher/modes/ctr.c:22-32 | the last eight bytes, as a little-endian number, grow by n modulo 2^64 and the bytes in front of them stay |
| `BlockModes.CtrIs` | src/blockcipher/modes/ctr.c:16-33 | block k of a CTR run is xored with the encryption of any block that equals the IV in front of the last eight bytes and whose last eight bytes are the number of the IV plus k modulo 2^64 |
| `BlockModes.CtrIvIs` | src/blockcipher/modes/ctr.c:16-33 | the IV after a CTR run, in the same numbers |
| `BlockModes.ModesAre` | src/blockcipher/modes/cbc.c:15-38 | each output block of a run in ECB, CBC, CFB and OFB is what sections 6.1 to 6.4 of NIST SP 800-38A make of the input, the IV and the block cipher |
| `BlockModes.ParallelizableExactly` | src/blockcipher/modes/cbc.c:40-60 | a direction is marked parallelizable if and only if the IV in front of a block never depends on the block cipher |
| `BcMode.Context.CtrCrypt` | src/blockcipher/modes/ctr.c:16-33 | one block in place or not: the output is the input xored with the encrypted IV, and the next IV has the number in its last eight bytes, read in little-endian order, advanced by one modulo 2^64 |
| `BcMode.Context.OfbCrypt` | src/blockcipher/modes/ofb.c:15-29 | the OFB step, also for a null input |
| `BcMode.Context.CbcEncrypt` | src/blockcipher/modes/cbc.c:15-24 | the CBC encryption step |
| `BcMode.Context.CbcDecrypt` | src/blockcipher/modes/cbc.c:26-38 | the CBC decryption step; the ciphertext is saved before an output that may be the same buffer is written |
| `BcMode.Context.CfbEncrypt` | src/blockcipher/modes/cfb.c:15-27 | the CFB encryption step |
| `BcMode.Context.CfbDecrypt` | src/blockcipher/modes/cfb.c:29-41 | the CFB decryption step, in place or not |
| `BcMode.Context.CtrPrepareWorkerIvs` | src/blockcipher/modes/ctr.c:35-52 | every worker starts with the counter of its first block: the number in the last eight bytes of the IV plus the blocks in front of the worker, modulo 2^64 |
| `BcMode.Context.ChainPrepareWorkerIvs` | src/blockcipher/modes/cbc.c:40-48 | every worker after the first starts with the ciphertext block in front of its range, read before anything is written |
| `BcMode.Context.Prepare` | src/blockcipher/blockcipher.c:439-444 | after preparation the memory is one from which the workers may start in any order |
| `Parallel.StepKeepsInv` | src/blockcipher/blockcipher.c:416-434 | one block step of one worker keeps the invariant of all workers, also in place |
| `Parallel.AllDone` | src/blockcipher/blockcipher.c:449-455 | when every job is done the buffer is the sequential output and the last worker holds the sequential IV |
| `ParallelRun.StepKeepsInv` | src/blockcipher/blockcipher.c:436-455 | every step of the queue protocol or of a running job keeps the joint invariant |
| `ParallelRun.ParallelIsSequential` | src/blockcipher/blockcipher.c:436-455 | for any worker and block count, any interleaving, input equal to or disjoint from output: once join has returned, output and final IV are those of the sequential loop |
| `ParallelRun.NoDeadlock` | src/blockcipher/blockcipher.c:445-449 | until join returns some thread can move |
| `ParallelRun.RunsAreBounded` | src/blockcipher/blockcipher.c:445-449 | the same bound for the composed system, and a run that cannot continue has returned from join |
| `BcMode.Context.ProcessBlockParallel` | src/blockcipher/blockcipher.c:436-455 | the method itself, under an arbitrary scheduler of block steps, computes the sequential output and IV |
| `BcMode.Context.Update` | src/blockcipher/blockcipher.c:466-482 | output buffer, IV and IV backup after the call, for both branches and for the case in which neither runs; the output is the `UpdateOut` of the exactness result |
| `BcMode.UpdateIsSequentialExactly` | src/blockcipher/blockcipher.c:471-481 | the output is the sequential one whatever the buffer held if and only if the call does not ask to split a direction that cannot be split |
| `BcMode.CbcEncryptionSkipped` | src/blockcipher/blockcipher.c:471-479 | a concrete call that leaves the output untouched: CBC or CFB encryption of 1024 blocks with two worker threads |
| `BcMode.Context.BackupIv` | src/blockcipher/blockcipher.c:404-408 | the IV backup holds the current IV |
| `BcMode.Context.RestoreIv` | src/blockcipher/blockcipher.c:410-414 | the IV is the one backed up |
| `Bytes.XorB64` | src/utils/xor.h:44-53 | the buffer after the word loop and the byte loop, for any length, in place or not |
| `Bytes.XorB64Exact` | src/utils/xor.h:44-53 | all bytes are xored if and only if the length is a multiple of 8 or below 8, because the byte loop starts again at offset 0 |
| `StreamCipher.Stream.SetKey` | src/streamcipher/streamcipher.c:152-158 | a new nonce starts the keystream at position 0 and drops any partial block |
| `StreamCipher.Stream.Update` | src/streamcipher/streamcipher.c:166-233 | for every length, with a pending partial block or not, with a null input, two buffers or one: the output bytes are the input bytes xored with the one keystream at the running byte position, which advances by the length, and nothing behind them changes |
| `StreamCipher.Stream.KeystreamBytes` | src/streamcipher/streamcipher.c:235-239 | raw keystream bytes at the running position |
| `Keystream.CryptSplit` | src/streamcipher/streamcipher.c:166-233 | coding a concatenation is coding the parts at consecutive positions |
| `Keystream.ChunkingIrrelevant` | src/streamcipher/streamcipher.c:166-233 | however a message is cut into calls, the output is that of one call |
| `Keystream.CryptTwice` | src/streamcipher/streamcipher.c:192-193 | a second pass at the same position restores the data |
| `Keystream.ChunkedRoundTrip` | src/streamcipher/streamcipher.c:166-233 | encrypting in one set of chunks and decrypting in any other gives the message back |
| `Keystream.RunIsKeystream` | src/blockcipher/modes/ofb.c:15-29 | a run of OFB or CTR blocks is the input xored with keystream blocks that depend on nonce and block number alone |
| `Keystream.CryptCtr` | src/streamcipher/streamcipher.c:166-233 | under CTR every byte at every position is xored with the byte of the encryption of the nonce advanced, in numbers, by the block it lies in |
| `Keystream.CryptOfb` | src/streamcipher/streamcipher.c:166-233 | under OFB it is xored with the byte of the nonce encrypted as many times as there are blocks up to it |
| `Arc4.Context.Init` | src/streamcipher/arc4.c:32-50 | the key schedule |
| `Arc4.ScheduleIndices` | src/streamcipher/arc4.c:41-49 | after i rounds the running index is the sum of the key bytes and table cells met so far modulo 256, and the key bytes come round in turn, of a longer key the first 256 |
| `Arc4.GeneratorIndices` | src/streamcipher/arc4.c:62-66 | after n bytes one index is n, the other the sum of the table cells met, both modulo 256 |
| `Arc4.Context.Update` | src/streamcipher/arc4.c:52-76 | state and output after any number of bytes, with or without input |
| `Arc4.AlwaysPermutation` | src/streamcipher/arc4.c:32-76 | after the key schedule and any number of output bytes the table is a permutation of 0..255 |
| `Arc4.CryptSplit` | src/streamcipher/arc4.c:52-76 | the output does not depend on how the data is split into calls |
| `Arc4.CryptTwice` | src/streamcipher/arc4.c:52-76 | two passes under the same key give the data back |
| `Mt19937.Generator.InitGenrand` | src/prng/mt19937.c:56-64 | the table of init_genrand |
| `Mt19937.Generator.Init` | src/prng/mt19937.c:66-97 | both seeding loops, with their wrapping indices, compute the table of init_by_array; of a seed without a whole word they take in one word all the same |
| `Mt19937.Generator.Regenerate` | src/prng/mt19937.c:104-122 | after the three in-place loops cell i holds the word of the recurrence 624 places further on, the twist of two words as a matrix over GF(2) |
| `Mt19937.Generator.Update` | src/prng/mt19937.c:99-130 | the next output is the tempering matrix times the next word of the recurrence; an unseeded generator whose index has run out seeds itself with 5489 |
| `Mt19937.Generator.Words` | src/prng/mt19937.c:99-130 | the n-th word after seeding is the tempering matrix times x[n + 624], for all n |
| `Mt19937.ZeroTableGivesZeros` | src/prng/mt19937.c:50-54 | what an unseeded, zeroed generator produces: only zeros |
| `TwisterMatrix.TemperIsMatrix` | src/prng/mt19937.c:124-128 | the four shift and mask steps multiply by the tempering matrix, which is given by its 32 columns |
| `TwisterMatrix.TemperedInverse` | src/prng/mt19937.c:124-128 | tempering is a bijection: the function that undoes the four steps from the last to the first is its inverse on both sides |
| `TwisterMatrix.RegeneratedIsTwist` | src/prng/mt19937.c:110-120 | masks, shift and the table of two words are the twist, bit by bit |
| `Mt19937.KnownOutput` | src/prng/mt19937.c:99-130 | for the seed 5489 the first output is 3499211612, given the three words of the table that decide it |
| `Threefish.UnmixMix` | src/blockcipher/ciphers/threefish/threefish.h:24-30 | u undoes m with the same rotation and key words |
| `Rotate.RolIsTurned` | src/blockcipher/ciphers/threefish/threefish.h:24-26 | the shifts of m rotate left: they are as many rotations by one bit as the count says |
| `Rotate.RorRol` | src/blockcipher/ciphers/threefish/threefish.h:24-30 | the shifts of u undo the shifts of m |
| `ThreefishTables.RotationCounts` | src/blockcipher/ciphers/threefish/threefish512.c:23-54 | every rotation count in the three files is between 1 and 63, as the shifts need |
| `Threefish.PairAlone` | src/blockcipher/ciphers/threefish/threefish512.c:56-82 | the pairs of a round are disjoint: each comes out as if its macro call had been made alone |
| `Threefish.RoundUndone` | src/blockcipher/ciphers/threefish/threefish512.c:70-82 | a round of u calls undoes a round of m calls although both go through the pairs in the same order |
| `Threefish.RoundsUndone` | src/blockcipher/ciphers/threefish/threefish512.c:102-168 | every round of decryption takes back the last round of encryption still in force |
| `Threefish.DecryptInvertsEncrypt` | src/blockcipher/ciphers/threefish/threefish1024.c:155-277 | decryption inverts encryption for every schedule and block |
| `Threefish.RowKeyIsSubKey` | src/blockcipher/ciphers/threefish/threefish512.c:117-125 | the words a macro call looks up are the subkey words k[(s + i) mod (Nw + 1)] with tweak words and counter |
| `ThreefishSpec.MixIsSpec` | src/blockcipher/ciphers/threefish/threefish.h:24-26 | m on keyed words is MIX of section 3.3.1 of The Skein Hash Function Family, version 1.3 |
| `ThreefishSpec.NextOrder` | src/blockcipher/ciphers/threefish/threefish512.c:56-61 | the pair orders follow the word permutation and return to the identity after four rounds |
| `ThreefishSpec.RoundsRefine` | src/blockcipher/ciphers/threefish/threefish512.c:102-125 | after every round the locals hold the permuted state of the round-by-round specification |
| `ThreefishSpec.EncryptIsThreefish` | src/blockcipher/ciphers/threefish/threefish512.c:102-134 | the unrolled encryption computes Threefish as section 3.3 defines it, for any tables that say what the specification says |
| `ThreefishTables.TF256WellFormed` | src/blockcipher/ciphers/threefish/threefish256.c:23-123 | the literals of the 256-bit file are a valid schedule of rounds |
| `ThreefishTables.TF512WellFormed` | src/blockcipher/ciphers/threefish/threefish512.c:23-160 | the literals of the 512-bit file are a valid schedule of rounds |
| `ThreefishTables.TF1024WellFormed` | src/blockcipher/ciphers/threefish/threefish1024.c:23-260 | the literals of the 1024-bit file are a valid schedule of rounds |
| `ThreefishTables.TF256Implements` | src/blockcipher/ciphers/threefish/threefish256.c:23-123 | the rotations, the rounds and the pair orders of the 256-bit file are the 72 rounds, Table 4 and Table 3 of the specification |
| `ThreefishTables.TF512Implements` | src/blockcipher/ciphers/threefish/threefish512.c:23-160 | the same for the 512-bit file |
| `ThreefishTables.TF1024Implements` | src/blockcipher/ciphers/threefish/threefish1024.c:23-260 | the same for the 1024-bit file, with 80 rounds |
| `ThreefishTables.Threefish256Correct` | src/blockcipher/ciphers/threefish/threefish256.c:77-127 | Threefish-256 decrypts what it encrypts and is the specified cipher |
| `ThreefishTables.Threefish512Correct` | src/blockcipher/ciphers/threefish/threefish512.c:102-168 | Threefish-512 decrypts what it encrypts and is the specified cipher |
| `ThreefishTables.Threefish1024Correct` | src/blockcipher/ciphers/threefish/threefish1024.c:155-277 | Threefish-1024 decrypts what it encrypts and is the specified cipher |
| `ThreefishCode.M` | src/blockcipher/ciphers/threefish/threefish.h:24-26 | the macro as assignments to two locals |
| `ThreefishCode.U` | src/blockcipher/ciphers/threefish/threefish.h:28-30 | the inverse macro as assignments to two locals |
| `ThreefishCode.Context.SetKey` | src/blockcipher/ciphers/threefish/threefish512.c:85-92 | the schedule holds the key words and their parity word |
| `ThreefishCode.Context.SetTweak` | src/blockcipher/ciphers/threefish/threefish512.c:94-100 | the schedule holds the tweak words and their xor |
| `ThreefishCode.Context.Encrypt` | src/blockcipher/ciphers/threefish/threefish512.c:102-134 | the output bytes are the encrypted words, stored in little-endian order |
| `ThreefishCode.Context.Decrypt` | src/blockcipher/ciphers/threefish/threefish512.c:136-168 | the output bytes are the decrypted words |
| `ThreefishCode.BlockRoundTrip` | src/blockcipher/ciphers/threefish/threefish512.c:102-168 | on blocks of bytes decryption inverts encryption |
| `ThreefishCode.ThreefishIsCipher` | src/blockcipher/ciphers/threefish/threefish512.c:255-267 | a scheduled Threefish is an invertible block cipher in the sense of the mode theorems |
| `ThreefishCode.ExpandedParity` | src/blockcipher/ciphers/threefish/threefish512.c:85-100 | xored to 0x1bd11bdaa9fc1a22 all words of an expanded key give zero, and so do all tweak words |
| `Words.LoadStoreWords` | src/utils/endian-neutral.h:90-95 | words stored and loaded again are the same words |
| `Words.StoreLoadWords` | src/utils/endian-neutral.h:90-95 | bytes loaded as words and stored again are the same bytes |
| `Words.ValueIsBits` | src/utils/endian-neutral.h:84-95 | the bytes of a stored word, read as a little-endian number, are the number its 64 bits stand for |
| `Skein.FeedForward64` | src/utils/endian-neutral.h:97-104 | the word loop xors the input into the output, byte by byte |
| `Skein.Context.Compress` | src/hash/skein/skein_common.c:28-44 | state and tweak after n consecutive blocks |
| `Skein.Context.Init` | src/hash/skein/skein_common.c:46-92 | whatever was hashed before is forgotten: state, tweak and buffer depend on the output length alone, and the chaining value is that of the configuration block |
| `Skein.Context.Update` | src/hash/skein/skein_common.c:94-127 | after any message the context has compressed and buffered exactly what the concatenated history calls for |
| `Skein.Context.Final` | src/hash/skein/skein_common.c:129-162 | the digest is Skein of the concatenated history, with configuration block, tweaks and block numbers of the definition given byte by byte |
| `Skein.Context.Hash` | src/hash/skein/skein_common.c:94-162 | for any split of a message into updates the digest is the one-shot definition |
| `SkeinSpec.TweakIs` | src/hash/skein/skein_common.c:33-41 | the two words of the context, as they lie in memory, are the sixteen tweak bytes of the definition |
| `SkeinSpec.TweakInNumbers` | src/hash/skein/skein_common.c:19-25 | bytes 0 to 7 of a tweak are the position in little-endian order, bytes 8 to 14 are zero, byte 15 is the type 4, 48 or 63 with 64 for the first and 128 for the last block |
| `SkeinSpec.VersionBytes` | src/hash/skein/skein_common.c:19-20 | the first word of the configuration string is S, H, A, 3 and version 1 |
| `SkeinSpec.DigestBytesExact` | src/hash/skein/skein_common.c:129-146 | the digest length is rounded up to whole bytes if and only if adding 7 does not overflow 32 bits |
| `SkeinSpec.AbsorbAppend` | src/hash/skein/skein_common.c:94-127 | absorbing can be interrupted anywhere |
| `SkeinSpec.AbsorbIsChain` | src/hash/skein/skein_common.c:101-126 | after T > 0 bytes exactly the blocks that end before T are compressed, 1 to block-size bytes are kept, the position is T less those, and FIRST is set only before the first block |
| `SkeinSpec.AbsorbThenLast` | src/hash/skein/skein_common.c:137-143 | absorbing and compressing the padded rest is unique block iteration over the whole message (section 3.4 of The Skein Hash Function Family, version 1.3) |
| `SkeinSpec.OneBlock` | src/hash/skein/skein_common.c:148-155 | a configuration or output block is unique block iteration of a one-block message |
| `SkeinThreefish.ThreefishIsTweakable` | src/hash/skein/skein_common.c:57-71 | Threefish of any of the three sizes is a cipher of the kind the hash needs |
| `Sha1.SwapLoads` | src/hash/sha1/sha1.c:33-38 | blk0 turns a little-endian load into a big-endian one |
| `Sha1.MacroFIsF` | src/hash/sha1/sha1.c:45-54 | the Boolean functions of R0 to R4 are Ch, Parity and Maj of section 4.1.1 of FIPS 180-4 |
| `Sha1Spec.KIsRoot` | src/hash/sha1/sha1.c:45-54 | the four constants are the square roots of 2, 3, 5 and 10, cut after 30 binary places |
| `Sha1Spec.RolTurns` | src/hash/sha1/sha1.c:31 | the rotations by 5 and 30 are rotations by 1, five times forward and twice backward |
| `Sha1.CellsRead` | src/hash/sha1/sha1.c:40-42 | the four cells that blk reads hold the words of the schedule recurrence |
| `Sha1.PlaysNext` | src/hash/sha1/sha1.c:69-88 | with the macro arguments rotated, each register plays the next part |
| `Sha1.Compress` | src/hash/sha1/sha1.c:57-95 | the circular in-place form with rotated registers computes the 80-word form of section 6.1.2 of FIPS 180-4 |
| `Sha1.NextCountExact` | src/hash/sha1/sha1.c:115-117 | the 64-bit bit count is right after a call if and only if the shifted length fits into 32 bits or the low word overflows anyway |
| `Sha1.Context.Update` | src/hash/sha1/sha1.c:108-129 | state, buffer and low count are those of the concatenated history; the high count stays right exactly under that condition |
| `Sha1.Context.PadLoop` | src/hash/sha1/sha1.c:141-144 | the padding loop adds the bit 1 and the least number of zero bytes that leaves room for the length |
| `Sha1.Context.Final` | src/hash/sha1/sha1.c:131-151 | the digest is the fold over the padded history with the counters as length, and SHA-1 of the history when the count is right |
| `Sha1.Context.Hash` | src/hash/sha1/sha1.c:97-151 | for any split into calls below 2^29 bytes the digest is SHA-1 of the message |
| `AesSpec.InvMixOfMix` | src/blockcipher/ciphers/aes/aes.c:815-840 | InvMixColumns undoes MixColumns |
| `AesSpec.InvMixXor` | src/blockcipher/ciphers/aes/aes.c:815-840 | InvMixColumns is linear, so it can be applied to round keys |
| `AesSpec.DblReduces` | src/blockcipher/ciphers/aes/aes.c:32-33 | the doubling the tables are made with is a shift, reduced by 0x11b |
| `AesSpec.InvSubShiftOf` | src/blockcipher/ciphers/aes/aes.c:957-1066 | InvSubBytes with InvShiftRows undoes SubBytes with ShiftRows |
| `AesSpec.DecryptingBack` | src/blockcipher/ciphers/aes/aes.c:957-1040 | inside the equivalent inverse cipher the states of the cipher reappear, last first |
| `AesSpec.InvCipherOfCipher` | src/blockcipher/ciphers/aes/aes.c:844-1066 | the equivalent inverse cipher of section 5.3.5 of FIPS 197 undoes the cipher |
| `AesBox.SiOfS` | src/blockcipher/ciphers/aes/aes.c:300-365 | the inverse S-box undoes the S-box on all 256 bytes |
| `AesField.SIsAffine` | src/blockcipher/ciphers/aes/aes.c:300-365 | every value of the S-box is the affine map of section 5.1.1 of FIPS 197, applied to the inverse in GF(2^8) |
| `AesField.Products` | src/blockcipher/ciphers/aes/aes.c:32-97 | the factors 2, 3, 9, 11, 13 and 14 in the tables are products in GF(2^8) |
| `AesField.MixIs` | src/blockcipher/ciphers/aes/aes.c:32-298 | MixColumns, as the tables make it, is the circulant matrix of 2, 3, 1, 1 |
| `AesField.InvMixIs` | src/blockcipher/ciphers/aes/aes.c:367-633 | InvMixColumns is the circulant matrix of 14, 11, 13, 9 |
| `AesField.SubShiftAt` | src/blockcipher/ciphers/aes/aes.c:860-864 | row r moves r places, and back in decryption |
| `AesTables.E0` | src/blockcipher/ciphers/aes/aes.c:32-97 | the 256 literals of e0 are the columns 2s, s, s, 3s of the S-box values s |
| `AesTables.E1` | src/blockcipher/ciphers/aes/aes.c:99-164 | the literals of e1 are those columns turned by one byte |
| `AesTables.E2` | src/blockcipher/ciphers/aes/aes.c:166-231 | the literals of e2 are those columns turned by two bytes |
| `AesTables.E3` | src/blockcipher/ciphers/aes/aes.c:233-298 | the literals of e3 are those columns turned by three bytes |
| `AesTables.E4` | src/blockcipher/ciphers/aes/aes.c:300-365 | the literals of e4 hold the S-box in each byte |
| `AesTables.D0` | src/blockcipher/ciphers/aes/aes.c:367-432 | the 256 literals of d0 are the columns 14s, 9s, 13s, 11s of the inverse S-box values s |
| `AesTables.D1` | src/blockcipher/ciphers/aes/aes.c:434-499 | the literals of d1 are those columns turned by one byte |
| `AesTables.D2` | src/blockcipher/ciphers/aes/aes.c:501-566 | the literals of d2 are those columns turned by two bytes |
| `AesTables.D3` | src/blockcipher/ciphers/aes/aes.c:568-633 | the literals of d3 are those columns turned by three bytes |
| `AesTables.D4` | src/blockcipher/ciphers/aes/aes.c:635-700 | the literals of d4 hold the inverse S-box in each byte |
| `AesWords.EncWordIs` | src/blockcipher/ciphers/aes/aes.c:861-864 | four lookups in the literals of e0 to e3 and the key word are SubBytes, ShiftRows, MixColumns and AddRoundKey on one column |
| `AesWords.DecWordIs` | src/blockcipher/ciphers/aes/aes.c:973-976 | the same for the literals of d0 to d3 |
| `AesWords.EncLastIs` | src/blockcipher/ciphers/aes/aes.c:930-953 | the masked lookups of the last round leave MixColumns out |
| `AesWords.DecLastIs` | src/blockcipher/ciphers/aes/aes.c:1042-1065 | the same for decryption |
| `Aes.Schedule.SetEncryptKey` | src/blockcipher/ciphers/aes/aes.c:710-799 | rd_key holds the expanded key of FIPS 197, whose round constants are the powers of x in GF(2^8) |
| `Aes.RconIs` | src/blockcipher/ciphers/aes/aes.c:702-706 | entry i of rcon is x to the i-th in GF(2^8) in the top byte, zeros below |
| `AesBytes.ExpandedIs` | src/blockcipher/ciphers/aes/aes.c:709-800 | every byte of the expanded key: the key itself, then each word from the one a key length back and the one before, turned, substituted and with a power of x where section 5.2 of FIPS 197 says |
| `AesBytes.LoadedIs` | src/blockcipher/ciphers/aes/aes.c:855-858 | which byte of a block is where in the state |
| `AesBytes.StoredIs` | src/blockcipher/ciphers/aes/aes.c:928-953 | the bytes of the state leave it in the same order |
| `Aes.Schedule.Reverse` | src/blockcipher/ciphers/aes/aes.c:807-812 | the swapping loop turns the order of the round keys around |
| `Aes.Schedule.SetDecryptKey` | src/blockcipher/ciphers/aes/aes.c:802-841 | the round keys are those of the equivalent inverse cipher |
| `Aes.Schedule.Encrypt` | src/blockcipher/ciphers/aes/aes.c:844-954 | the output is the cipher of FIPS 197 under the scheduled round keys |
| `Aes.Schedule.Decrypt` | src/blockcipher/ciphers/aes/aes.c:957-1066 | the output is the equivalent inverse cipher under the scheduled round keys |
| `Aes.DecKeyWordIs` | src/blockcipher/ciphers/aes/aes.c:815-819 | looking up d0 to d3 at e4 is InvMixColumns |
| `Aes.DecryptInvertsEncrypt` | src/blockcipher/ciphers/aes/aes.c:802-1066 | for every key and block, decryption under the decryption schedule inverts encryption under the encryption schedule |
| `Aes.AesIsCipher` | src/blockcipher/ciphers/aes/aes.c:1214-1227 | AES under a key is an invertible block cipher in the sense of the mode theorems |
| `PresFormat.UnpackPack` | include/libk/internal/pres.h:40-120 | a packed record reads back as it was written |
| `PresFormat.HdrRoundTrip` | include/libk/internal/pres.h:40-80 | the file header reads back as it was written |
| `PresFormat.EntryRoundTrip` | include/libk/internal/pres.h:94-111 | a table entry reads back as it was written |
| `PresFields.HdrRead` | include/libk/internal/pres.h:40-80 | every field of the file header at its offset, numbers in little-endian order; read and packed again the bytes are the same |
| `PresFields.DhdrRead` | include/libk/internal/pres.h:82-92 | the same for the detached header |
| `PresFields.EntryRead` | include/libk/internal/pres.h:94-111 | the same for a table entry |
| `PresFields.RtblRead` | include/libk/internal/pres.h:113-120 | the same for the head of the table |
| `PresFields.PackUnpack` | include/libk/internal/pres.h:40-120 | packing what was read from any bytes gives them back |
| `PresFormat.DigestCoverHdr` | include/libk/internal/pres.h:191-193 | storing the digest does not change the bytes it covers |
| `PresFormat.NameRoundTrip` | src/utils/pres.c:257-260 | a name comes back if and only if it is shorter than 256 bytes |
| `PresFormat.Strip` | src/utils/pres.c:329-340 | the loop of k_pres_add_file keeps what follows the first slash and shifts the base name offset in 64-bit arithmetic |
| `PresFormat.IsHidden` | src/utils/pres.c:342-350 | a name is hidden if and only if one of its components starts with a dot |
| `PresFormat.BasenameKept` | src/utils/pres.c:329-340 | the shifted offset leads to the same base name if and only if that lay behind the first slash |
| `PresDisk.Disk.Write` | src/utils/pres.c:201-206 | a write outside the committed pool, failing or partial, leaves a disk state from which a crash is recoverable, and what it wrote is no longer certain to be on disk |
| `PresDisk.Disk.ReplaceMeta` | src/utils/pres.c:98-113 | replacing the .meta file is all or nothing, and safe when the new pool is synced |
| `PresDisk.CrashKeepsData` | src/utils/pres.c:67-125 | in every crash image a live entry of the .meta file finds its bytes if and only if the container file was not unlinked or the entry is empty |
| `PresDisk.CrashAnywhere` | src/utils/pres.c:67-125 | the same for every state a disk has ever gone through; only an uncommitted temporary is ever unlinked |
| `PresDisk.CrashOfSynced` | src/utils/pres.c:67-79 | a file that is synced as a whole is the only thing a crash can leave |
| `PresDisk.RecoverableExactly` | src/utils/pres.c:1048-1054 | the .meta file recovers all data after every crash if and only if the container file was not unlinked or no live entry has bytes |
| `PresDisk.UnlinkedExactly` | src/utils/tfile.c:176-185 | the exit of the process unlinks a temporary that was not committed: its .meta file recovered all data before, and afterwards if and only if no live entry has bytes |
| `PresDisk.OneByteLost` | src/utils/tfile.c:109-119 | an input on which it does not: one entry of one byte, the file unlinked |
| `PresDisk.Disk.CommitFile` | src/utils/tfile.c:126-174 | a temporary is renamed without fsync or unlinked; any other file is synced if fsync works, and stays |
| `PresDisk.Disk.RollbackFile` | src/utils/tfile.c:109-119 | a temporary is unlinked, any other file stays |
| `PresBooks.AppendExact` | src/utils/pres.c:194-208 | append writes all of its data if and only if it is shorter than two full buffers, because total is not reset between them |
| `PresBooks.ConsistentFacts` | src/utils/pres.c:273-277 | what consistent books mean: the table starts where the pool ends, headers and cursors agree, no more entries than allocated, ids are 0 or the place, live ranges are ordered, disjoint and inside the pool |
| `PresBooks.TakenPosts` | src/utils/pres.c:255-277 | taking in a new entry keeps table order, pool and file size consistent |
| `PresBooks.DeletePosts` | src/utils/pres.c:1265-1266 | zeroing an entry keeps the table consistent |
| `PresBooks.DataKept` | src/utils/pres.c:268-277 | growing the pool leaves earlier resources alone |
| `PresBooks.NewData` | src/utils/pres.c:263-277 | the new entry reads back as the data that was coded |
| `PresReplay.RetrievedExact` | src/utils/pres.c:182-235 | a resource reads back as the concatenation of its appends if and only if each was shorter than two full buffers |
| `PresReplay.PresentAll` | src/utils/pres.c:1130-1153 | the contents of a file and what its ids give access to are two views of one table |
| `PresReplay.SlotsTaken` | src/utils/pres.c:255-277 | taking in a new entry adds one id and leaves what all others give access to |
| `PresReplay.SlotsDeleted` | src/utils/pres.c:1265-1266 | zeroing an entry takes away its id and leaves all others |
| `Pres.Container.Create` | src/utils/pres.c:872-964 | a new container has consistent books and a .meta file that holds them, in place of whatever .meta file was there before; otherwise it has none, an older one stays, and the temporary is unlinked if it had been made; a cipher mode without a keystream is refused |
| `Pres.Container.CommitMeta` | src/utils/pres.c:81-125 | the cursors are posted to the headers and to the .meta file, or nothing at all changes |
| `Pres.Container.Init` | src/utils/pres.c:127-180 | the slot behind the table is ready and the file stands behind the pool, or the books are as before |
| `Pres.Container.Append` | src/utils/pres.c:182-235 | hash input, stored bytes and size grow by what was really written, and the file by no more than that, or the resource is rolled back |
| `Pres.Container.Commit` | src/utils/pres.c:237-302 | the entry is in the table and in the .meta file and the pool has grown by its bytes, or nothing has changed |
| `Pres.Container.Rollback` | src/utils/pres.c:67-79 | the books stay; on success the file ends behind the pool and is synced |
| `Pres.Container.Delete` | src/utils/pres.c:1255-1272 | the entry is zeroed in the table and in the .meta file, or nothing changes; a resource being added is not disturbed |
| `Pres.Container.Run` | src/utils/pres.c:67-302 | over any run of operations, failing anywhere: every id gives access to exactly what replaying the operations with their outcomes says, down to the bytes and to what a resource not yet committed has stored; consistent books, only recoverable disk states, and a file that is no longer than the books say unless the return values show an init or append that was neither committed nor rolled back; if no system call fails, the outcomes are failure for a commit without a name or a delete without an entry and success for everything else |
| `Pres.Container.LeftoverExact` | src/utils/pres.c:182-235 | an unfinished resource makes the file longer than the books say if and only if its bytes reach behind the place of the table |
| `Pres.Container.AddFile` | src/utils/pres.c:304-366 | on success the new entry has the stripped name, the shifted base name offset, the uuid, the digest and exactly the data of the file; otherwise the books are as before. A read error returns 0 after the first piece although nothing was added, and leaves the file too long if and only if the pieces do not fit where the table goes |
| `Pres.Container.Close` | src/utils/pres.c:967-1072 | on success the file is the closed image of the books, the pool is still on disk, all of the file is if fsync was called and worked, its first byte is uncertain otherwise, and the .meta file is gone; on failure the .meta file stays, and recovers all data if and only if the container was opened rather than created or no live entry has bytes |
| `PresImage.TwoCalls` | src/utils/pres.c:1038-1043 | a table encrypted in one cipher call decrypts in two |
| `PresImage.ClosedParts` | src/utils/pres.c:994-1046 | the three written parts do not overlap, and leftover bytes behind the table keep the file longer |
| `PresImage.ClosedKeepsPool` | src/utils/pres.c:994-1046 | closing does not touch the data pool |
| `PresImage.CheckHdrIs` | src/utils/pres.c:420-481 | the header check of a sealed container fails only on unrecognised fields or on the file size |
| `PresImage.CheckTablePasses` | src/utils/pres.c:558-589 | every entry of a sealed table passes its digest and bounds check |
| `PresImage.CloseThenOpen` | src/utils/pres.c:684-782 | opening what closing wrote gives headers and table back if and only if the header fields are recognised and the file was not longer than it says |
| `PresImage.FinalOk` | src/utils/pres.c:979-1033 | what closing writes is sealed, laid out and says what the books say |
| `PresImage.ResourceSurvives` | src/utils/pres.c:967-1213 | close and open give live resource i back: id, uuid, name, size, place and data |
| `PresImage.AllSurvive` | src/utils/pres.c:967-1213 | the contents of a closed file are all live resources of the books, in order, if and only if the header fields are recognised and the file was not longer than the books say; otherwise it is refused |
| `PresImage.RecognisedStays` | src/utils/pres.c:420-481 | whether opening recognises the header is settled by the options of k_pres_create |
| `PresImage.NewRecognised` | src/utils/pres.c:420-481 | the header of a new container is recognised if and only if the hash function and digest length fit, and a cipher is known and has a key size |
| `PresImage.ParsedFits` | src/utils/pres.c:483-682 | whatever passes the checks of opening fits its fields |
| `PresGenuine.ParseExact` | src/utils/pres.c:420-682 | opening accepts a file, as these headers and this table, if and only if every field is there at its offset, both headers, the head of the table and all entries that are not deleted carry the digest of their bytes, and everything lies within the file, where sums in 64 bits are concerned as the code computes them; every other file is refused |
| `PresGenuine.AcceptedDigests` | src/utils/pres.c:420-682 | on raw bytes: a file in which a header, the head of the table or an entry that is not deleted, as decoded, does not carry its digest is refused |
| `PresGenuine.AcceptedNumbers` | src/utils/pres.c:420-481 | the numbers of an accepted header on disk: magic, version, hash, digest length, cipher, key size, file size, and mode 4 for OFB, 5 for CTR, 0 for none |
| `PresGenuine.CheckEntryExact` | src/utils/pres.c:558-589 | the check of one entry passes if and only if it is deleted or carries its digest and ends within the file |
| `PresGenuine.EndsWithinExact` | src/utils/pres.c:368-376 | the overflow test and the comparison after it are the comparison of the sum as a number |
| `PresGenuine.OpenThenClose` | src/utils/pres.c:420-1046 | closing an opened container without a change writes exactly the bytes that are there: the converse of `CloseThenOpen` for arbitrary files |
| `PresGenuine.CodedIs` | src/utils/pres.c:541-545 | every coded byte on disk: the xor with the keystream byte that OFB or CTR makes of the beginning of the IV field |
| `PresLife.CloseAndOpen` | src/utils/pres.c:684-1072 | closing and opening any container changes nothing for its users when both work, and the next session can start: the file is as long as the books say and its header is recognised; the closed file gives access to exactly its resources if and only if the header is recognised and the file was no longer than the books say |
| `PresLife.CloseForGood` | src/utils/pres.c:1048-1072 | when closing has worked, every crash leaves the contents as they are if and only if fsync was called and worked, which it never is for a new container, and always for another one if no system call fails |
| `PresLife.Sessions` | src/utils/pres.c:67-1072 | any number of sessions, each a run of operations failing anywhere, closing and opening: what the ids give access to at the end, what the closed file holds that could not be opened, or the .meta file of a close that failed, is what replaying all sessions with their outcomes gives, with the exact conditions of one session; if no system call fails, only a closed file that is refused ends them early |
| `PresLife.Lifetime` | src/utils/pres.c:67-1072 | create, any run of operations failing anywhere, close, open: if the return values show every init committed or rolled back, the closed file holds exactly the resources that replaying the operations with their outcomes gives, if and only if the options are usable; after a run that ends while adding, if and only if also the unfinished bytes fit where the table goes; if closing fails, the .meta file holds these resources, of use if and only if they are all empty; if no system call fails, all of it works |
| `PresLife.ReadErrorThenClose` | src/utils/pres.c:352-359 | the failing run: a read error in k_pres_add_file, then close; a return value of 0 always means that the file was dropped, and the closed container is refused if and only if the pieces do not fit where the table goes |
| `PresLife.OneFile` | src/utils/pres.c:304-1072 | create, add one file, close: the closed file holds exactly that file if and only if the options are usable; if only the closing fails, the .meta file is of use if and only if the file was empty; if no system call fails, the file is added if and only if its name is neither hidden nor empty |
| `Pres.Container.GetHeaders` | src/utils/pres.c:483-556 | both headers are read, decoded and checked as the parse of the file says |
| `Pres.Container.GetTable` | src/utils/pres.c:591-682 | head and entries are read in two calls of one running cipher, as the parse of the file says; the table is accepted if and only if it is in the file with the digest of the head and of every entry that is not deleted, and the entries within the file |
| `Pres.Container.Open` | src/utils/pres.c:684-761 | a file opens only if it is genuine, with every digest in place, with the books it describes and a .meta file that holds them; the state is valid if closing has laid the file out and its pool is on disk |
| `Pres.Container.ResOpen` | src/utils/pres.c:1130-1153 | deleted entries are refused; otherwise the resource describes its entry and the cipher starts over; a resource being added can be continued if and only if there is no cipher, the entry was deleted, or nothing has been appended and both have the same IV |
| `Pres.Container.ResMap` | src/utils/pres.c:1180-1213 | a window, inside the resource or not, holds what the file has there, decoded at the running cipher position: inside the resource the slice of the data when there is no cipher or the windows before it were mapped in order; length 0 asks for everything; the file position moves behind what was read, so that a resource being added can be continued if and only if no cipher position was used and that happens to be its place |
| `PresRepack.ComparisonExact` | src/utils/pres.c:1420-1426 | with entries as committing leaves them, all resources pass the digest comparison if and only if for the data of each the shorter digest of both hash functions starts the longer one and zeros follow where the new one is longer; with the same hash function none is refused |
| `PresRepack.SignedMore` | src/utils/pres.c:263-264 | adding a resource keeps the table one in which every live entry has the digest of its data, zeros behind it |
| `PresRepack.AddResource` | src/utils/pres.c:1378-1439 | on success the copy has the same uuid, name, basename offset and data; when the comparison is reached it decides by equality of the digests over the new length |
| `PresRepack.CopyAll` | src/utils/pres.c:1464-1477 | the new container holds exactly the live resources of the old one in order, renumbered 1..n, without gaps, each with the digest of its data, in a file no longer than the books say, or those in front of the one that could not be copied; a resource is refused only if not all of them pass the comparison, and then it is |
| `PresRepack.Repack` | src/utils/pres.c:1441-1487 | closing writes exactly those books, and the new file gives access to exactly the live resources of the old container, with names cut to 255 bytes, if and only if its options are usable; when copying fails, the temporary stays under a .meta file with the resources copied so far, of use until the process exits and afterwards if and only if they are empty; it fails only if a system call failed, not all resources pass the comparison, one has no name, or the options cannot create a container |
| `PresRepack.RenamedSame` | src/utils/pres.c:257-260 | cutting changes nothing if and only if all names are shorter than 256 bytes |

## Left out

- ParallelRun.ParallelIsSequential: one client thread uses a workbench; several at once are not modelled.
- BcMode.Context.Update: buffers are arrays with one cell per block, so input and output are the same buffer or disjoint; overlapping buffers, which the C code cannot handle either, are not modelled.
- StreamCipher.Stream.Update: input and output are the same buffer or disjoint, not shifted against each other. The whole blocks of a call are copied into the block cells of `BcMode` and back; in place at block level is proved there.
- Keystream.CryptSplit: ARC4 as stream cipher has its own laws in `Arc4` and is not dispatched through `k_sc_update`; its nonce and key mixing in `k_sc_set_key` is not modelled.
- Mt19937.Generator.Init: the word that is read when the seed has less than four bytes lies partly behind the seed; what it holds is a parameter.
- Mt19937.KnownOutput: the three words of the table are given; the 397 steps of seeding that lead to them are not carried out.
- Threefish.DecryptInvertsEncrypt: the macro calls of the three files are tables of literals run by loops.
- Aes.Schedule.Encrypt: the rounds written out in the C code are a loop over the same round, as many times as the key length asks for.
- Sha1.Compress: the 80 macro calls are a loop with the register of each part computed from the round number.
- Skein.Context.Final: a context that was finished has to be initialised again before more data; the C code does not check. `message_size + partial_count` is taken not to overflow 64 bits.
- PresDisk.CrashAnywhere: what counts after a crash is the file that the descriptor refers to, for a new container the temporary until it is renamed. A process that exits unlinks the temporaries it has not committed (`__cleanup` in src/utils/tfile.c), as `Disk.RollbackFile` does; the exit itself is not a step of a run.
- PresDisk.Disk.ReplaceMeta: the `.meta` file is as durable as its atomic replacement; that `tcommit_one` (src/utils/tfile.c) renames it without fsync is not modelled.
- Pres.Container.Open: opening for reading only is not modelled, nor is the password path. A file with valid digests that closing has not laid out is opened, but its state is not promised to be valid.
- Pres.Container.GetTable: table entries that would lie behind the end of the file are refused, where the C code maps them.
- Pres.Container.Run: operations come from a caller that gives up a resource as soon as a call on it fails and deletes existing ids only. `k_pres_delete_id` returns nothing; its outcome in a run is whether it zeroed the entry.
- Pres.Container.Init: the nonce is a parameter; the loop that draws again while it is zero is left out.
- Pres.Container.Append: called with the file position behind the bytes appended so far and the cipher set up for them. `ResOpen` and `ResMap` say when opening or reading another resource in between breaks that; what the C code then appends is not modelled.
- PresRepack.AddResource: `k_pres_repack` does not carry the digest length over, so the old and the new digest function may differ; `ComparisonExact` says what that does to the comparison. A failed read returns NULL, which the C code does not test for; here the copy fails.
- Pres.Container.Create: container ciphers are block ciphers in OFB or CTR mode, or none. What the error path does to descriptor 0 before there is a temporary is not modelled.
- The tweak of `k_bcmode_set_tweak` and the key size tables of `k_bcmode_set_key`: only error plumbing.
- Section registries, memory pools, error reporting, password prompts, the platform random numbers and key derivation: no property that spans operations.
- `k_pres_export_id` and the lookups by name and uuid: loops that would only add easy members.
- Memory failures other than the growth of the resource table; big-endian builds.
