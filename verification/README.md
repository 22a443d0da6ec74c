# Ascon for wolfSSL and OpenSSL: a verified model

Dafny models of the Ascon code in this repository, and proofs about them. Run
`dafny verify dfyconfig.toml` here to check everything.

## What is modelled

**The permutation.** Words are bit strings (`Words`), so that shifts and rotations are what the C operators do.
`AsconP.Round` is one round of Ascon-p; `AsconCodings` holds the five codings of it as methods over arrays: the 64-bit
loop of `ascon.c`, its unrolled p8 and p12, the copy in `mask_prf.c`, the loop shared by `ascon_local.h` and
`verify_ascon_32bit.c`, and the ten-lane 32-bit form. All compute `Permuted`. `AsconInverse` gives the inverse: the
63rd iterate of each linear map is its inverse, because squaring the map doubles both rotation amounts. `AsconMachine` and
`AsconVector` are the round once more on 64-bit vectors, proved equal to `AsconP.Round`; with them `Computed` evaluates
Ascon-p on constant states.

**The sponge.** The state is forty bytes, as in the C union on a little-endian machine; `AsconMode` connects that view
to the five words and `AsconUnion` runs the codings on it. The streaming theorems hold for *any* pair of functions on
states (`Perms`); `AsconMode.Ascon()` is the pair of Ascon-p with twelve and eight rounds. The field `perms` (or `perm`)
of each context class is the permutation that the build selects. `Sponge.Feed` is the sponge fed byte by byte from any
position, `OneShot.Seal` and `OneShot.Hash` are the block-by-block definitions of `verify_ascon_32bit.c`, and
`OneShot.FeedIsBlocks` shows that the two agree. What these definitions mean is said without them: `ModesInBytes` says,
for all permutations and byte by byte, where key, nonce, data, padding and separator enter and what comes out;
`Vectors` gives the modes on 64-bit words; and `KnownAnswers` evaluates them for Ascon, under keys and nonces that
differ, on AD and messages of several blocks.

**Two streaming stacks.** `WolfAead.AsconAEAD128` and `WolfHash.AsconHash256` are the contexts of `ascon.c`;
`OsslAead.AsconAead128` and `OsslHash.AsconHash256Core` those of `ascon_local.h`, with the provider functions of
`cipher_ascon128.c` in `OsslProvider`. Methods update the fields and arrays in place and are proved equal to transitions
of a context value (`WolfCalls`, `OsslCalls`); `WolfRuns` and `OsslRuns` prove what whole runs of such calls do, and
`CrossStack` that the two stacks agree. A provider record is init with an iv and perhaps a key, updates and tag settings
in any order, final, and reading the tag; so the tag of a decryption may come with init or by `ascon128_set_ctx_params` at any point
before final. The output array may be the input array itself: a method's contract gives the
same bytes and state either way (`Buffers.Compatible`).

**Around them.** `MaskPrf` (record-number masks and their domain separation), `RecordKat` (record nonces, protect and
unprotect), `WolfHash` (the HMAC chain of `hmac_oracle.c`), `Collisions`, `Hybrid` and `Tapes` (the counting argument
of the two Coq files, with its axioms proved), `CorruptTags` and `Pcap` (the byte tools).

Conventions: a NULL pointer is a null array in a method and `None` in a transition; the code's return values
`BAD_FUNC_ARG`, `BAD_STATE_E` and `ASCON_AUTH_E` are `BadFuncArg`, `BadState` and `AuthError`. Clocks and the source of
a datagram are parameters.

## Where the code and its comments differ

The model follows the code.

- `ascon_local.h:4-6` calls itself a byte-exact port. It departs from `ascon.c` in two ways. Line 209 adds no padding
  block when nothing is buffered, which for Ascon shows with sixteen zero bytes of associated data under a zero key and
  nonce (`AsconWitness.AsconWholeBlockAadDiffers`). And lines 179-184 leave the flushed bytes in `adPart`, which lines
  210-212 XOR in again; two calls of eight and nine bytes come out different under every key and nonce
  (`AsconResults.AsconFlushedAadDiffers`), and a later flush of zeros puts it right (`OsslAad.LaterFlushHeals`).
  `OsslAad.AadInCallsExactly` says exactly when the port is right, for every AD and every way of cutting it into calls.
- `ascon_local.h:149-153` clears the scratch buffers so that nothing of an earlier record is read. The tag is not
  cleared, and lines 342-344 read it: a decryption that is given no tag compares with the one left in the context, and
  accepts a record that the same context has just encrypted (`AsconWitness.AsconStaleTagAccepts`,
  `CrossStack.StaleTagAccepts`). `OsslRuns.RecordForgetsContextExactly` says that this is the only dependence.
- `ascon.c:668-677` gives another layout of the mask state, and other initial values, than `mask_prf.c:66-68` and
  `ascon.c:56` and `60` use.
- `hmac_oracle.c:62-64` and `86-88` suppose that Final leaves a zero state; `ascon.c:388-393` initialises the context
  again.
- `EncryptFinal` and `DecryptFinal` refuse a context on which no update call was made, so a message without data needs
  one empty update. The streaming theorems say so.
- The three start-index rules agree on 8 and 12 rounds only (`AsconCodings.StartIndexesAgree`).

## Model

| member | source | states |
|---|---|---|
| AsconP.SubstituteIsTheSbox | wolfssl/wolfcrypt/src/ascon.c:207-219 | The bitwise substitution layer acts on every column of every state as the 5-bit S-box table of SP 800-232, section 3.3 |
| AsconInverse.SubstituteInverts | wolfssl/wolfcrypt/src/ascon.c:207-219 | The substitution layer is a bijection: the explicit inverse undoes it on both sides |
| AsconInverse.ChiInverts | wolfssl/wolfcrypt/src/ascon.c:211-215 | The and-not layer alone is invertible, with its inverse given word by word |
| AsconInverse.SigmaSquared | wolfssl/wolfcrypt/src/ascon.c:221-225 | Applying x ^ rotr(x,a) ^ rotr(x,b) twice gives the same form with both amounts doubled |
| AsconInverse.Iterate64 | wolfssl/wolfcrypt/src/ascon.c:221-225 | Each such map applied 64 times is the identity, for all amounts below 64 |
| AsconInverse.SigmaInverts | wolfssl/wolfcrypt/src/ascon.c:221-225 | Hence its 63rd iterate is its inverse, on both sides |
| AsconInverse.DiffuseInverts | wolfssl/wolfcrypt/src/ascon.c:221-225 | The whole linear layer is a bijection |
| AsconInverse.RoundInverts | wolfssl/wolfcrypt/src/ascon.c:202-226 | One round, with any constant, is a bijection of the 320-bit states with an explicit inverse |
| AsconInverse.RoundsInvert | wolfssl/wolfcrypt/src/ascon.c:228-234 | So are the rounds from any start index to the twelfth |
| AsconCodings.StartIndexesAgree | wolfssl/wolfcrypt/src/ascon.c:188-200 | The start-index rules of the codings agree exactly for 8 and 12 rounds, where they count back from twelve; elsewhere they give twelve, zero and four |
| AsconCodings.AsconRound | wolfssl/wolfcrypt/src/ascon.c:202-226 | The in-place round of the C code, in its order of assignments, is the round function |
| AsconCodings.PermutationLoop | openssl-ascon/providers/implementations/include/prov/ascon_local.h:40-74 | The in-place loop of the OpenSSL port and of the tool runs the rounds from the given index |
| AsconCodings.PermutationWolf | wolfssl/wolfcrypt/src/ascon.c:228-234 | permutation() computes Ascon-p with 8 or 12 rounds |
| AsconCodings.PermutationMask | wolfssl/wolfcrypt/src/mask_prf.c:32-59 | The private copy of mask_prf.c computes the same function |
| AsconCodings.P8 | wolfssl/wolfcrypt/src/ascon.c:263-271 | The eight unrolled rounds are Ascon-p with 8 rounds |
| AsconCodings.P12 | wolfssl/wolfcrypt/src/ascon.c:273-278 | The twelve unrolled rounds are Ascon-p with 12 rounds |
| AsconCodings.JoinBitwise | wolfssl/wolfcrypt/src/ascon.c:104-120 | Bitwise operations on 64-bit words are the operations on their halves |
| AsconCodings.RotrSplits | wolfssl/wolfcrypt/src/ascon.c:85-94 | A 64-bit rotation is two pairs of 32-bit shifts, for short and for long amounts |
| AsconCodings.SigmaShortShort | wolfssl/wolfcrypt/src/ascon.c:121-136 | The five-term half-word expressions are the linear map, both amounts below 32 |
| AsconCodings.SigmaShortLong | wolfssl/wolfcrypt/src/ascon.c:121-136 | The same with one amount on each side of 32 |
| AsconCodings.SigmaLongLong | wolfssl/wolfcrypt/src/ascon.c:121-136 | The same with both amounts from 32 on |
| AsconCodings.P32Diffuse | wolfssl/wolfcrypt/src/ascon.c:121-136 | The ten half-word assignments of the linear layer compute it |
| AsconCodings.P32Substitute | wolfssl/wolfcrypt/src/ascon.c:104-120 | The half-word constant addition and substitution compute theirs |
| AsconCodings.P32Round | wolfssl/wolfcrypt/src/ascon.c:104-137 | One ten-lane round is one round on the joined words |
| AsconCodings.P32x8 | wolfssl/wolfcrypt/src/ascon.c:139-148 | Eight ten-lane rounds are Ascon-p with 8 rounds |
| AsconCodings.P32x12 | wolfssl/wolfcrypt/src/ascon.c:150-156 | Twelve ten-lane rounds are Ascon-p with 12 rounds |
| AsconCodings.Permutation32 | wolfssl/wolfcrypt/src/ascon.c:164-182 | The 32-bit permutation() over the lanes in memory computes the 64-bit one, for every state |
| AsconMode.UnionRoundTrip | wolfssl/wolfcrypt/src/ascon.c:202-234 | The byte view and the word view of the state determine each other, little-endian |
| AsconMode.WordXor | openssl-ascon/providers/implementations/include/prov/ascon_local.h:212-213 | XOR into a state word is XOR of its eight bytes into the byte view, and leaves the other words alone |
| AsconMode.ConstantsAsWords | wolfssl/wolfcrypt/src/ascon.c:54-60 | The initial values and the domain separator as 64-bit words have the byte images the model uses |
| AsconMode.PermutationInverts | wolfssl/wolfcrypt/src/ascon.c:228-234 | Ascon-p on the forty-byte state is a bijection with an explicit inverse, for 8 and 12 rounds |
| AsconMachine.RoundIs | wolfssl/wolfcrypt/src/ascon.c:202-226 | The round on 64-bit vectors is the round on bit strings, for every state and constant |
| AsconMachine.RunFromIs | wolfssl/wolfcrypt/src/ascon.c:228-234 | So are the rounds from any index on, with the table's constants |
| AsconVector.StepIs | wolfssl/wolfcrypt/src/ascon.c:202-226 | The C round's expressions on plain 64-bit vectors are that round |
| AsconVector.PermutedBytes | wolfssl/wolfcrypt/src/ascon.c:228-234 | The rounds on vectors are Ascon-p on their forty bytes |
| AsconMachine.BytesAre | openssl-ascon/providers/implementations/include/prov/ascon_local.h:8-13 | A 64-bit vector stands for its eight bytes in memory, low byte first |
| AsconUnion.Permute64 | tools/verify_ascon_32bit.c:51-79 | The 64-bit coding run on the union gives Ascon-p on its bytes |
| AsconUnion.Permute32 | tools/verify_ascon_32bit.c:83-147 | So does the 32-bit coding run on the same union |
| Sponge.FeedAppend | wolfssl/wolfcrypt/src/ascon.c:506-550 | Feeding data in two pieces, from any position, is feeding it at once: state, position and output |
| Sponge.FeedRoundTrip | wolfssl/wolfcrypt/src/ascon.c:506-633 | Decrypting what was encrypted from the same position restores the data and reaches the same state and position, and conversely |
| OneShot.FeedIsBlocks | tools/verify_ascon_32bit.c:179-234 | Byte-wise feeding and then padding is the block loop with its padded last block, for every rate and data |
| VerifyTool.AsconHash | tools/verify_ascon_32bit.c:151-177 | The one-shot hash method computes Hash, which ShortHashInBytes, LongDataInBytes and the known digests say in bytes |
| VerifyTool.AsconAeadEncrypt | tools/verify_ascon_32bit.c:179-234 | The one-shot encryption method computes Seal, also with ct and pt the same array; the lemmas of ModesInBytes and the known answers say Seal in bytes |
| ModesInBytes.StartInBytes | wolfssl/wolfcrypt/src/ascon.c:419-486 | Initialization for any permutation: literal IV, key and nonce in their places, permuted, the key added to the last sixteen bytes |
| ModesInBytes.NoAdInBytes | wolfssl/wolfcrypt/src/ascon.c:488-500 | Without AD only the top bit of the last byte changes |
| ModesInBytes.ShortAdInBytes | wolfssl/wolfcrypt/src/ascon.c:488-500 | AD within a block: added, padded with 0x01, permuted, then the separator |
| ModesInBytes.LongAdInBytes | wolfssl/wolfcrypt/src/ascon.c:488-500 | Every earlier whole block is added and permuted |
| ModesInBytes.WholeAdInBytes | wolfssl/wolfcrypt/src/ascon.c:488-500 | AD that ends with a whole block is followed by a block of padding alone |
| ModesInBytes.ShortDataInBytes | wolfssl/wolfcrypt/src/ascon.c:544-564 | The last data: ciphertext bytes, state bytes and padding, one by one |
| ModesInBytes.LongDataInBytes | wolfssl/wolfcrypt/src/ascon.c:536-543 | A whole block comes out added to the state, which is then permuted |
| ModesInBytes.TagInBytes | wolfssl/wolfcrypt/src/ascon.c:566-572 | The tag byte by byte: key into bytes 16 to 31, permutation, key into the last sixteen |
| ModesInBytes.ShortHashInBytes | tools/verify_ascon_32bit.c:151-177 | The hash of a message within one block for any permutation: permuted initial value, padded message, four squeezed words |
| Vectors.SealIs | tools/verify_ascon_32bit.c:179-234 | Sealing two and a half blocks with one and a half of AD, on 64-bit words, for all keys, nonces and data |
| KnownAnswers.SealVector | tools/verify_ascon_32bit.c:179-234 | The literal ciphertext and tag for a key and a nonce that differ, 24 bytes of AD and 40 of data |
| KnownAnswers.EmptySealVector | tools/ascon_kat.c:52 | The tag that the first vector expects |
| KnownAnswers.EmptyHashVector | tools/ascon_hash_kat.c:8 | The digest of the empty message that the first vector expects |
| KnownAnswers.HashVector | tools/verify_ascon_32bit.c:151-177 | The literal digest of ten bytes, one whole block and a rest |
| HashSpec.StreamedDigestIsHash | wolfssl/wolfcrypt/src/ascon.c:334-394 | The digest after any list of updates is the one-shot hash of their concatenation |
| HashSpec.AbsorbAllFlattens | wolfssl/wolfcrypt/src/ascon.c:334-370 | Any list of updates from any position reaches the state of one update with the concatenation |
| WolfHash.AsconHash256.Init | wolfssl/wolfcrypt/src/ascon.c:314-325 | Init reaches the hash's initial state whatever the context held |
| WolfHash.AsconHash256.Update | wolfssl/wolfcrypt/src/ascon.c:334-370 | The three-phase update absorbs exactly its bytes, keeps lastBlkSz below 8, and changes nothing when refused |
| WolfHash.AsconHash256.Final | wolfssl/wolfcrypt/src/ascon.c:372-394 | Final writes the digest and leaves the context as Init would; a NULL output changes nothing |
| OsslHash.AsconHash256Core.Init | openssl-ascon/providers/implementations/include/prov/ascon_local.h:83-88 | The port's init reaches the same initial state |
| OsslHash.AsconHash256Core.Update | openssl-ascon/providers/implementations/include/prov/ascon_local.h:90-109 | The single-loop update absorbs the same state as the three-phase one |
| OsslHash.AsconHash256Core.Final | openssl-ascon/providers/implementations/include/prov/ascon_local.h:111-118 | The port's final writes the same digest, and leaves the permuted state behind |
| WolfHash.MakePads | tools/hmac_oracle.c:40-43 | The pad loop XORs the key's first eight bytes with the two constants |
| WolfHash.HmacInBytes | tools/hmac_oracle.c:38-55 | The code in bytes: the hashed key's first eight bytes with 0x36 before the message and with 0x5C before that digest |
| WolfHash.HmacOneContext | tools/hmac_oracle.c:73-85 | The chain inner, Final, opad, Final on a single reused context is H(opad, H(ipad, msg)) for every key and message |
| WolfHash.HmacFreshContexts | tools/hmac_oracle.c:17-55 | The same value with a fresh context for every hash |
| WolfAead.AsconAEAD128.Init | wolfssl/wolfcrypt/src/ascon.c:419-439 | Everything is reset but the iv field |
| WolfAead.AsconAEAD128.SetKey | wolfssl/wolfcrypt/src/ascon.c:448-461 | Key into the state and the context, once; refusals change nothing |
| WolfAead.AsconAEAD128.SetNonce | wolfssl/wolfcrypt/src/ascon.c:463-474 | Nonce into the state, once; refusals change nothing |
| WolfAead.AsconAEAD128.SetAD | wolfssl/wolfcrypt/src/ascon.c:476-504 | The block loop with its padded last block and the domain separator reach the one-shot state after associated data |
| WolfAead.AsconAEAD128.EncryptUpdate | wolfssl/wolfcrypt/src/ascon.c:506-550 | For every length, starting lastBlkSz and buffer, in place or not, the three phases feed the sponge and write its output and no other byte |
| WolfAead.AsconAEAD128.EncryptFinal | wolfssl/wolfcrypt/src/ascon.c:553-580 | The tag of the finalised state, or a refusal that changes nothing |
| WolfAead.AsconAEAD128.DecryptBytes | wolfssl/wolfcrypt/src/ascon.c:597-628 | The saved-ciphertext copies of decryption give plaintext out and ciphertext into the state, even in place |
| WolfAead.AsconAEAD128.DecryptUpdate | wolfssl/wolfcrypt/src/ascon.c:583-633 | The same as for encryption, with the ciphertext kept in the state |
| WolfAead.AsconAEAD128.DecryptFinal | wolfssl/wolfcrypt/src/ascon.c:635-666 | Success exactly when the given tag is the finalised state's |
| WolfRuns.RejectedCallsChangeNothing | wolfssl/wolfcrypt/src/ascon.c:419-666 | A call that returns BAD_STATE_E or BAD_FUNC_ARG leaves the context as it was and writes nothing; iv survives every call |
| WolfRuns.ReturnValues | wolfssl/wolfcrypt/src/ascon.c:419-666 | What every call returns, by its arguments and the flags and direction set before |
| WolfRuns.Apply | wolfssl/wolfcrypt/src/ascon.c:419-666 | Every call keeps the invariant: adSet implies keySet and nonceSet, a set direction implies adSet, lastBlkSz below 16 |
| WolfRuns.SetOnceUntilInit | wolfssl/wolfcrypt/src/ascon.c:419-666 | Over any run of calls without Init the direction, the key and every flag once set stay |
| WolfRuns.InitForgets | wolfssl/wolfcrypt/src/ascon.c:419-439 | From Init on, a run's results depend on nothing that ran before except iv |
| WolfRuns.SetupIsReady | wolfssl/wolfcrypt/src/ascon.c:419-504 | Init, SetKey, SetNonce and SetAD all succeed on any context and reach the one-shot starting state |
| WolfRuns.UpdatesFeed | wolfssl/wolfcrypt/src/ascon.c:506-633 | Any list of updates, empty ones included, feeds the sponge with the concatenation |
| WolfRuns.StreamingEncryptsOneShot | wolfssl/wolfcrypt/src/ascon.c:476-580 | For every key, nonce, associated data and split into update calls, ciphertext and tag are the one-shot ones; with no update call EncryptFinal refuses |
| KnownAnswers.WolfSealVector | wolfssl/wolfcrypt/src/ascon.c:476-580 | The stream gives the literal ciphertext and tag on any context and under any split of those 40 bytes |
| WolfRuns.StreamingDecryptionIsExact | wolfssl/wolfcrypt/src/ascon.c:583-666 | The plaintext released re-encrypts to the ciphertext, and DecryptFinal returns 0 exactly when ciphertext and tag are its encryption |
| WolfRuns.SealInjective | tools/verify_ascon_32bit.c:179-234 | Under one key, nonce and associated data no two plaintexts share a ciphertext |
| WolfRuns.AcceptanceIsTheImageOfSealing | wolfssl/wolfcrypt/src/ascon.c:583-666 | A pair (ciphertext, tag) is accepted exactly when some plaintext encrypts to it |
| WolfRuns.RoundTripUnderAnySplits | wolfssl/wolfcrypt/src/ascon.c:506-666 | Encrypting under one split and decrypting under any other returns the plaintext, succeeds, and both contexts end in the same sponge state |
| OsslCalls.AbsorbAad | openssl-ascon/providers/implementations/include/prov/ascon_local.h:159-197 | Absorbing keeps adPartSz below 16 |
| OsslAead.AsconAead128.Reset | openssl-ascon/providers/implementations/include/prov/ascon_local.h:135-156 | Every field but tag and enc is determined by key and nonce |
| OsslAead.AsconAead128.FillPart | openssl-ascon/providers/implementations/include/prov/ascon_local.h:170-185 | The top-up of adPart takes what is missing and flushes a full block, or takes everything |
| OsslAead.AsconAead128.AbsorbAad | openssl-ascon/providers/implementations/include/prov/ascon_local.h:159-197 | The three phases of AD absorption, the stale bytes of adPart included |
| OsslAead.AsconAead128.AadFinalize | openssl-ascon/providers/implementations/include/prov/ascon_local.h:200-218 | Closing the associated data, at most once |
| OsslAad.AbsorbAbsorbs | openssl-ascon/providers/implementations/include/prov/ascon_local.h:159-197 | Whatever the calls, the state and the counted bytes of adPart always stand for the whole associated data so far |
| OsslAad.TailZeroExactly | openssl-ascon/providers/implementations/include/prov/ascon_local.h:170-197 | After any call, from any buffer, the bytes of adPart from adPartSz on are zero if and only if those of the block flushed by the call, or without a flush those that were there, are zero from there on |
| OsslAad.AbsorbBuffers | openssl-ascon/providers/implementations/include/prov/ascon_local.h:170-197 | What adPart holds after a call, in terms of the AD alone: its last bytes, then the rest of the last block completed from waiting bytes |
| OsslAad.StaleZeroExactly | openssl-ascon/providers/implementations/include/prov/ascon_local.h:159-197 | Over any list of calls after a reset the stale bytes are zero if and only if no call flushed, or the last flushed block ends in zeros from the tail's length on |
| OsslAad.NeverFlushesExactly | openssl-ascon/providers/implementations/include/prov/ascon_local.h:170-185 | Whether any call flushes is a condition on the lengths of the calls |
| OsslAad.ClosedAdExactly | openssl-ascon/providers/implementations/include/prov/ascon_local.h:200-218 | Closing gives the standard's state if and only if the data is empty, or is no multiple of 16 and the stale bytes are zero, or is one and the permutation acts on the state holding its last block as the padding does |
| OsslAad.AadInCallsExactly | openssl-ascon/providers/implementations/include/prov/ascon_local.h:159-218 | The same condition for every AD in every list of calls, stated on the AD and how it is cut |
| OsslAad.AadInCalls | openssl-ascon/providers/implementations/include/prov/ascon_local.h:159-218 | Under that condition, no whole last block, any list of AD calls gives the state of SetAD, for any permutation |
| OsslAad.AadInOneCall | openssl-ascon/providers/implementations/include/prov/ascon_local.h:159-218 | In particular a single call with such a length does |
| OsslAad.FlushedAadDiffers | openssl-ascon/providers/implementations/include/prov/ascon_local.h:179-184 | Two calls of eight and nine bytes never give it, for any injective permutation and any start |
| OsslAad.LaterFlushHeals | openssl-ascon/providers/implementations/include/prov/ascon_local.h:170-197 | The same two calls and then sixteen zero bytes: flushes happen and the state is the standard's |
| AsconWitness.AsconWholeBlockAadDiffers | openssl-ascon/providers/implementations/include/prov/ascon_local.h:209 | For Ascon under a zero key and nonce, sixteen zero bytes of AD in one call give another state than SetAD's |
| AsconResults.AsconIsInjective | wolfssl/wolfcrypt/src/ascon.c:228-234 | Both permutations of Ascon are injective on the byte states |
| AsconResults.AsconClosedAdExactly | openssl-ascon/providers/implementations/include/prov/ascon_local.h:200-218 | The exact condition of ClosedAdExactly for Ascon-p itself |
| AsconResults.AsconAadInCallsExactly | openssl-ascon/providers/implementations/include/prov/ascon_local.h:159-218 | The exact condition over all lists of AD calls for Ascon-p itself |
| AsconResults.AsconFlushedAadDiffers | openssl-ascon/providers/implementations/include/prov/ascon_local.h:179-184 | For Ascon-p, two calls of eight and nine bytes 0xFF give a state other than SetAD's from every starting state |
| OsslAead.AsconAead128.EncryptUpdate | openssl-ascon/providers/implementations/include/prov/ascon_local.h:221-267 | Encryption closes the AD if need be and feeds the sponge, in place or not |
| OsslAead.AsconAead128.DecryptUpdate | openssl-ascon/providers/implementations/include/prov/ascon_local.h:270-319 | So does decryption |
| OsslAead.AsconAead128.Final | openssl-ascon/providers/implementations/include/prov/ascon_local.h:325-345 | Encrypting stores the tag; decrypting succeeds exactly when the stored tag is the finalised state's |
| OsslAead.AsconAead128.SameTag | openssl-ascon/providers/implementations/include/prov/ascon_local.h:337-344 | The accumulated byte difference is zero exactly for equal tags |
| OsslProvider.SetTag | openssl-ascon/providers/implementations/ciphers/cipher_ascon128.c:162-171 | A tag is refused exactly when its length is not 16, and then nothing changes; an accepted one is stored and nothing else changes |
| OsslProvider.Ascon128SetTag | openssl-ascon/providers/implementations/ciphers/cipher_ascon128.c:139-172 | The method on the context does that |
| OsslProvider.InitSets | openssl-ascon/providers/implementations/ciphers/cipher_ascon128.c:187-212 | For every argument: when init fails, what is set before a bad length and what is left, and the state, key, AD fields, position and flags it leaves with an iv, under the key given or the one there |
| OsslProvider.Ascon128Init | openssl-ascon/providers/implementations/ciphers/cipher_ascon128.c:187-212 | The method performs that transition on the context |
| OsslProvider.UpdateSets | openssl-ascon/providers/implementations/ciphers/cipher_ascon128.c:228-252 | Update fails exactly for data that the output cannot hold, and then and for no data nothing changes |
| OsslProvider.Ascon128Update | openssl-ascon/providers/implementations/ciphers/cipher_ascon128.c:228-252 | No data does nothing, a NULL output is associated data, a short output is refused, the rest is crypted |
| OsslRuns.InnerCallsIgnoreTag | openssl-ascon/providers/implementations/ciphers/cipher_ascon128.c:139-252 | Between init and final no update or tag setting reads the tag: from contexts that differ in it all calls show the same, and the last tag set wins |
| OsslRuns.RecordShows | openssl-ascon/providers/implementations/ciphers/cipher_ascon128.c:187-263 | Everything a record shows on any context: what a fresh one shows before final, and a verdict and tag that depend on the context only through a leftover tag |
| OsslRuns.RecordForgetsContext | openssl-ascon/providers/implementations/ciphers/cipher_ascon128.c:187-263 | A record that encrypts or is given its tag before final shows the same on any two contexts with the same key, and on any two at all if it brings the key |
| OsslRuns.LeftoverTagDecides | openssl-ascon/providers/implementations/include/prov/ascon_local.h:342-344 | A decryption that is given no tag accepts exactly on the contexts left with the tag it computes |
| OsslRuns.RecordForgetsContextExactly | openssl-ascon/providers/implementations/ciphers/cipher_ascon128.c:187-263 | A record shows the same on all contexts under the same key if and only if it encrypts or is given its tag before final |
| OsslRuns.RecordsAreIndependent | openssl-ascon/providers/implementations/ciphers/cipher_ascon128.c:187-263 | In any run of records on one context, with keys of their own or not, every record that encrypts or is given its tag returns what it would on a freshly allocated context under the key in force |
| CrossStack.AadUpdatesAbsorb | openssl-ascon/providers/implementations/ciphers/cipher_ascon128.c:228-252 | Provider calls with a NULL output, empty ones included, absorb the AD piece by piece |
| CrossStack.DataUpdatesFeed | openssl-ascon/providers/implementations/ciphers/cipher_ascon128.c:228-252 | Provider data updates, empty ones included, feed the sponge with the concatenation after closing the AD |
| CrossStack.TagsMoveOut | openssl-ascon/providers/implementations/ciphers/cipher_ascon128.c:139-252 | Setting the tag anywhere between init and final leaves outputs and context as without it but for the tag |
| CrossStack.RecordComputes | openssl-ascon/providers/implementations/ciphers/cipher_ascon128.c:187-263 | Output, verdict and tag of a whole record in either direction, from any context, for any AD and wherever the tag is set |
| CrossStack.GoodStart | openssl-ascon/providers/implementations/include/prov/ascon_local.h:200-218 | Under the AD condition the data loop starts from the standard's state |
| CrossStack.OsslEncryptsOneShot | openssl-ascon/providers/implementations/include/prov/ascon_local.h:135-345 | The OpenSSL record's ciphertext and tag are the one-shot ones for every plaintext and split, under the exact AD condition |
| KnownAnswers.OsslSealVector | openssl-ascon/providers/implementations/ciphers/cipher_ascon128.c:187-263 | So does an OpenSSL record that brings the key, on any context and under any split |
| CrossStack.OsslDecryptionIsExact | openssl-ascon/providers/implementations/include/prov/ascon_local.h:270-345 | The plaintext released re-encrypts to the ciphertext, and final accepts exactly its encryption under the tag in force, however that was set |
| CrossStack.OsslOpensWolf | openssl-ascon/providers/implementations/include/prov/ascon_local.h:270-345 | OpenSSL, given the tag by init or later, decrypts and accepts what wolfSSL streamed, under independent splits |
| CrossStack.WolfOpensOssl | wolfssl/wolfcrypt/src/ascon.c:583-666 | wolfSSL decrypts and accepts what OpenSSL streamed, under independent splits |
| CrossStack.StaleTagAccepts | openssl-ascon/providers/implementations/include/prov/ascon_local.h:135-156 | A context that has encrypted a record decrypts and accepts its ciphertext without being given a tag; a fresh context accepts it exactly if the tag is zero |
| AsconWitness.AsconStaleTagAccepts | openssl-ascon/providers/implementations/include/prov/ascon_local.h:342-344 | For Ascon and the empty message under a zero key and nonce: accepted without a tag by the context that encrypted it, refused by a fresh one |
| MaskPrf.MaskInBytes | wolfssl/wolfcrypt/src/mask_prf.c:61-74 | The mask for any state that holds the DTLS number, the key and the input in this order: twelve rounds of it, cut to sixteen bytes |
| MaskPrf.MaskPrfDerive | wolfssl/wolfcrypt/src/mask_prf.c:61-74 | The method computes that mask for every domain; a NULL argument writes nothing |
| KnownAnswers.MaskVector | tools/ascon_mask_kat.c:45-58 | The literal mask of case A's key and input |
| MaskPrf.ContextMask | wolfssl/wolfcrypt/src/ascon.c:678-687 | The mask under the context's key and the DTLS entry, the context unchanged; on either refusal the mask buffer unchanged |
| MaskPrf.MaskStateInjective | wolfssl/wolfcrypt/src/mask_prf.c:61-74 | The permuted state determines domain, key and input |
| MaskPrf.TableEntry | wolfssl/wolfssl/wolfcrypt/mask_prf.h:22-33 | The four table entries are 64-bit words |
| MaskPrf.TableInAscii | wolfssl/wolfssl/wolfcrypt/mask_prf.h:22-33 | In memory they are the letters of RNDIMSK_, QUPNMSK_, ESPSNW__ and OSCORE__ |
| MaskPrf.MaskNeverMeetsAeadOrHash | wolfssl/wolfcrypt/src/mask_prf.c:61-74 | No mask state of a table entry is ever a permuted initial state of the AEAD, under any key and nonce, or of the hash |
| RecordKat.BuildNonce | tools/ascon_record_kat.c:20-25 | The nonce loop XORs the big-endian sequence number into the last eight bytes of the iv |
| RecordKat.BigEndianValue | tools/ascon_record_kat.c:24 | The eight bytes are the sequence number to base 256, the first counting most |
| RecordKat.NonceInBytes | tools/ascon_record_kat.c:20-25 | The first eight iv bytes stay, the others are XORed with those, in order |
| RecordKat.NonceInjective | tools/ascon_record_kat.c:20-25 | Under one iv, no two 64-bit sequence numbers share a nonce |
| RecordKat.Protect | tools/ascon_record_kat.c:44-49 | The protecting call sequence succeeds on any context with the one-shot ciphertext and tag |
| RecordKat.Unprotect | tools/ascon_record_kat.c:52-57 | The unprotecting sequence accepts exactly the encryption of what it releases |
| RecordKat.RunCase | tools/ascon_record_kat.c:34-63 | Protecting and then unprotecting returns the plaintext, for every length, sequence number and associated data |
| Collisions.CountsSum | formal/coq/mask_prf.v:35-60 | Sequences with and without a duplicate, as counted by the two recursions, sum to U^q |
| Collisions.FallingLast | formal/coq/mask_prf.v:35-40 | The falling factorial also unfolds at its last factor |
| Collisions.BirthdayBound | formal/coq/mask_prf.v:76-101 | Twice the collision count is at most q(q-1)U^(q-1) |
| Collisions.ListsAreAll | formal/coq/mask_prf_fcf.v:176-184 | The enumerated set holds exactly the lists of length q over the values below U |
| Collisions.ListsSize | formal/coq/mask_prf_fcf.v:536-552 | There are U^q of them |
| Collisions.DistinctSize | formal/coq/mask_prf_fcf.v:561-566 | The falling factorial counts those without a duplicate |
| Collisions.CountCollCounts | formal/coq/mask_prf_fcf.v:567-573 | count_coll counts exactly those with one: the enumeration that the file takes as an axiom |
| Hybrid.LookupMisses | formal/coq/mask_prf_fcf.v:25-41 | A lookup fails exactly when no entry has the key |
| Hybrid.LookupHits | formal/coq/mask_prf_fcf.v:25-29 | It returns a value exactly when the first entry of the key has it |
| Hybrid.DistinctQueriesAgree | formal/coq/mask_prf_fcf.v:98-130 | On a query list without duplicates and unseen in the table the memoised and the ideal oracle give any distinguisher the same probability |
| Hybrid.Averaging | formal/coq/mask_prf_fcf.v:224-387 | Two games within [0,1] that agree on duplicate-free lists have sums that differ by at most the number of lists with a duplicate |
| Hybrid.HybridBound | formal/coq/mask_prf_fcf.v:657-673 | U^q times the advantage of any distinguisher is at most count_coll(q,U), with no axiom |
| Hybrid.HybridBirthday | formal/coq/mask_prf_fcf.v:645-653 | And at most half of q(q-1)U^(q-1) |
| Tapes.AnswersRemember | formal/coq/mask_prf_fcf.v:43-52 | The oracle remembers: every query is answered with the draw of its first occurrence |
| Tapes.RealCounts | formal/coq/mask_prf_fcf.v:43-52 | Its acceptance probability is the fraction of random tapes on which the predicate accepts those answers |
| Tapes.IdealCounts | formal/coq/mask_prf_fcf.v:54-58 | The ideal oracle's is the fraction of tapes that are themselves accepted |
| Tapes.AcceptedIs | formal/coq/mask_prf_fcf.v:43-58 | What the accepted pairs of query list and tape are, without helpers |
| Tapes.HybridCounts | formal/coq/mask_prf_fcf.v:657-673 | For every predicate the numbers of accepted (query list, tape) pairs differ by at most count_coll(q,U) times the number of tapes |
| CorruptTags.Corrupt | tools/dtls_negative_proxy.ps1:13-28 | The in-place walk terminates, stays in bounds and flips the low bit of the last byte of each complete record of length at least 16, and nothing else |
| CorruptTags.CorruptedRecords | tools/dtls_negative_proxy.ps1:13-28 | On the bytes of any records and an incomplete rest: the last bit of every payload of at least 16 bytes is inverted, all else stays |
| CorruptTags.Decomposed | tools/dtls_negative_proxy.ps1:13-28 | Every byte string is of that form |
| CorruptTags.SameChain | tools/dtls_negative_proxy.ps1:13-28 | Changing those bytes leaves the chain of records as it was |
| Octets.FlipLowBitIsXor | tools/dtls_negative_proxy.ps1:25 | The flip is XOR with one on eight bits |
| CorruptTags.CorruptedTwice | tools/dtls_negative_proxy.ps1:13-28 | The corruption is its own inverse, for every byte string |
| CorruptTags.CorruptedDiffers | tools/dtls_negative_proxy.ps1:13-28 | A byte changes exactly when it ends such a record |
| Pcap.Capture.Record | tools/udp_relay_pcap.py:18-33 | A datagram is appended with its packet header and fake IPv4 and UDP headers, or refused when a field does not fit |
| Pcap.PackableExactly | tools/udp_relay_pcap.py:18-33 | It fits exactly up to 65507 bytes and 32-bit times |
| Pcap.GlobalHeaderFields | tools/udp_relay_pcap.py:15 | The file header's fields |
| Pcap.PacketHeaderFields | tools/udp_relay_pcap.py:32 | The packet header's fields |
| Pcap.PacketFields | tools/udp_relay_pcap.py:24-31 | The fake headers' fields, with the ports of each direction |
| Pcap.ReadPcap | tools/rfc9147_wire_check.py:15-27 | The reader's loop yields the complete packets after the header; a file too short to unpack and a wrong magic number are its two failures |
| Pcap.ParseUdpExactly | tools/rfc9147_wire_check.py:29-40 | On any bytes: what parse_udp accepts, and which bytes it returns |
| Pcap.PacketParses | tools/rfc9147_wire_check.py:29-40 | parse_udp returns the payload of a recorded packet |
| Pcap.CutCapture | tools/rfc9147_wire_check.py:15-27 | A capture cut within its last packet reads as the packets before |
| Pcap.CaptureRoundTrip | tools/rfc9147_wire_check.py:15-40 | Reading and parsing what was written for any number of datagrams gives exactly their payloads, in order |
| Pcap.RecordAndRead | tools/udp_relay_pcap.py:14-33 | The same for the writer and the reader as methods, from the global header on |

## Left out

- The TLS and DTLS endpoint programs, sockets, retry loops and test matrices: input and output over code outside this repository's core.
- The DTLS 1.3 record layer (dtls13.c, tls13.c): its source is not part of this model.
- `mask_prf_check_bound` and the timing statistics: floating point and measurement.
- Cryptographic strength: that masks or tags are unpredictable is not a property of this code. `delta_P` and the key-prediction terms of `mask_prf.v` are constants with one-step arithmetic.
- NULL context pointers, New, Free, Clear, and the erasure of secrets (ForceZero, OPENSSL_cleanse); ConstantCompare is equality.
- OSSL_PARAM tables, dispatch arrays, and the key and iv length parameters: the tag parameter and the lengths checked by init are modelled.
- Output buffers that overlap the input other than as `Buffers.Compatible` allows, and buffers inside a context: the code defines no result there.
- A provider record that reads the tag before final or calls init again half way: runs of such calls are modelled, and the record theorems are about updates and tag settings between init and final.
- Associated data after data, a second SetAD or a second final: the transitions follow the code, and no theorem says what they should mean.
- Sizes are unbounded: the limits of word32, int and size_t are not modelled.
- Big-endian builds, whose byte view of the words would differ.
- Time stamps are parameters of a recorded datagram.
- CorruptTags.Corrupt: covers the PowerShell function only, not the proxy modes that call it.
- Hybrid.HybridBound: queries and answers are numbers below U and below any positive number, of which bit vectors of length c and k are an instance.
- The wire-format assertions of `rfc9147_wire_check.py` after parsing, the other known-answer vectors, and the Tamarin and EasyCrypt files.
