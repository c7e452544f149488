# Verified model of an n2n edge

A Dafny 4.11 model of the parts of this n2n fork that are hardest to get right, with proofs
that they do what they are for. `dafny verify dfyconfig.toml` checks the whole project.

The model has three groups.

**Arithmetic and cipher kernels: fast code against a simple specification.**
`Words`, `Limbs`, `Field25519` and `Curve25519` model X25519 on radix-256 limbs in 32-bit words
and prove it equal to section 5 of RFC 7748 (`Rfc7748`), and `Montgomery` that this is the multiple
of the point by the chord and tangent rules of the curve. `AesTables` and `Aes` model the
table-driven plain C form of AES with its key setup in place and prove it equal to FIPS 197
(`Fips197`); `Cbc` models CBC in both forms. `ChaCha20`, `ChaCha20Crypt`, `ChaCha20Plain` and
`ChaCha20Forms` model the row-vector and the scalar form of ChaCha20 against RFC 8439
(`Rfc8439`). `Vectors` fixes the reference definitions by published values. `HeaderEncryption` and `AsciiCode` are the two in-place round trips.

**uthash.** `Uthash.Table` is the chained hash table with its application-order list, bucket
doubling and list mergesort, over a pool of nodes addressed by index (0 is NULL). `MergeSort`,
`PoolList`, `ListSort` and `HashChains` hold the theory; `UthashRuns` proves every run of
operations equal to a plain map and a plain list.

**Edge protocol state machines.** `Transport` (fallback from UDP/KCP to TCP) with `FallbackExact`
(exactly when a fallback goes on), `ActiveSocket` (which descriptor is in use) and
`SupernodeSockets` (the functions that open and close them),
`TapQueue` (two threads and a wake-up socket), `TcpFraming` (stream reassembly), `KcpPacket` and
`KcpSessions`. Each is a machine on values, about which the theorems over all runs are stated; the
queue, the sockets, the reassembly and the sessions also are classes whose methods do the source's
updates in place and are proved against the machine.
Results of socket opens, sends, KCP library calls, clocks and random numbers are inputs of the
operations, so each theorem holds for all of them.

Reading notes:

- C arrays of 64 limbs that hold two numbers are two 32-limb arrays here; `select` is called once
  per number. Masks and shifts by constants are remainders and quotients by powers of two; `&` and
  `^` of whole words are bitwise (`Words.Xor`, `Words.And`).
- The byte and word operations of AES and ChaCha20 are fields of a record (`Fips197.Tables`,
  `Rfc8439.Ops`) whose meaning is fixed by a predicate `Ok`; lemmas give the instances the source
  uses. AES holds for any S-box with an inverse; its lookup tables are given by the defining
  equations in the source's comments.
- `Fips197.Iterated` is a cipher built of rounds; `Tables.Describes(i)` says that `i` consists of the
  rounds of AES, and `Tables.DescribesSteps` that there is such an `i`.
- Where the code does not do what its documentation says, the model follows the code:
  `AsciiCode.PassesWrongly` (the validity test of `ascii_to_bin` reads the wrong table entry),
  `HeaderEncryption.RoundTripExactly` (the round trip needs a header of at least 20 bytes; with 16 to
  19 bytes some ciphers lead the receiver outside the packet, `HeaderEncryption.ShortHeaderFails`),
  and two branches of the fallback code that are never reached (`Transport.RecoveryIsDead`,
  `Transport.ProbeIsDead`).
- TCP reassembly has four defects, each with its exact condition: prefixes of 65534 and 65535 make
  the next read leave the buffer (`TcpFraming.WrapLeavesBuffer`, `TcpFraming.LeavesBufferExactly`);
  an empty frame stops the receiver (`TcpFraming.EmptyFrameWedges`, `TcpFraming.ExactlyTheGood`); the
  counters survive a broken connection, which is harmless only at a frame boundary
  (`TcpFraming.HarmlessReconnect`, `TcpFraming.OversizedReconnect`); and datagrams are received into
  the same buffer, which is harmless only at a boundary and right after a header
  (`TcpFraming.HarmlessDatagramExactly`). `OutOfBounds` is a state of the model about which nothing
  more is said.
- The descriptor in use, `sock`, is not always that of the active transport: two paths return before
  edge_sync_active_socket and leave the number of a closed socket, which the next socket to be opened
  may get (`ActiveSocket.ClosedTcpInUse`, `ActiveSocket.UdpInUseForTcp`); exactly which events do so
  is in `ActiveSocket.AlwaysSyncedExactly`.

## Model

| member | source | states |
|---|---|---|
| Words.MaskSelects | src/curve25519.c:170-183 | x ^ (mask & (x ^ y)) is x for mask 0 and y for the all-ones mask, the constant-time choice of select and freeze |
| Limbs.CarryTotal | src/curve25519.c:30-43 | propagating byte carries through limbs keeps the number they stand for when the last limb absorbs the last carry |
| Limbs.ValueInjective | src/curve25519.c:354-355 | two byte strings of equal length with equal little-endian values are equal |
| Field25519.Add | src/curve25519.c:30-43 | on limbs within the ladder's bounds the result is exactly a + b, no 32-bit wrap, limbs stay within what mult and square accept |
| Field25519.Sub | src/curve25519.c:46-59 | the result is exactly a - b + 2p and its residue a - b, although a[31] - b[31] may wrap below zero |
| Field25519.Squeeze | src/curve25519.c:62-83 | keeps the residue and leaves limbs 0..30 at most 255 and the top limb small |
| Field25519.FoldValue | src/curve25519.c:67-82 | folding the bits above 2^255 back as 19 times their value changes the number by that many p |
| Field25519.CarryPass | src/curve25519.c:66-82 | one carry pass of squeeze and mult121665 computes exactly the carry digits, never wrapping |
| Field25519.ProductResidue | src/curve25519.c:105-120 | the column sums with weight 38 on the wrapped columns stand for the product of the two numbers mod p |
| Field25519.ColumnIsSum | src/curve25519.c:111-118 | each output column of the limb rotation is the sum of the products the two inner loops add up |
| Field25519.MultLimb | src/curve25519.c:111-118 | the two inner loops compute that column without 32-bit wrap |
| Field25519.Mult | src/curve25519.c:105-120 | for all loose inputs the residue of the result is the product, and the result is squeezed |
| Field25519.Mult121665 | src/curve25519.c:123-144 | the residue of the result is 121665 times that of the input, and the result is squeezed |
| Field25519.SquareSum | src/curve25519.c:147-167 | the doubled half sums plus the middle terms of square equal column i of mult(a, a) |
| Field25519.SquareLimb | src/curve25519.c:152-165 | before squeezing, limb i of square equals limb i of mult(a, a), without wrap |
| Field25519.Square | src/curve25519.c:147-167 | the residue of the result is the square, and the result is squeezed |
| Field25519.Select | src/curve25519.c:170-183 | the two outputs are the inputs, exchanged exactly when the bit is 1 |
| Field25519.FreezeValue | src/curve25519.c:86-102 | adding 2^255 + 19 and testing bit 255 decides whether the number is below p, and choosing by it gives the number mod p |
| Field25519.Freeze | src/curve25519.c:86-102 | for every squeezed input the bytes of the result are the number mod p, below p |
| Curve25519.Doubling | src/curve25519.c:228-235 | the doubling half of a ladder step on residues, as in section 5 of RFC 7748 |
| Curve25519.DifferentialAdd | src/curve25519.c:224-239 | the differential addition half of a ladder step on residues |
| Curve25519.LadderCore | src/curve25519.c:217-239 | both halves together are the ladder arithmetic of RFC 7748 and keep the limb bounds |
| Curve25519.StepSettles | src/curve25519.c:213-240 | swapping before and after each step, as the source does, equals the deferred swap of RFC 7748 |
| Curve25519.Iteration | src/curve25519.c:213-240 | one of the 255 iterations refines the ladder step on residues and keeps the limb invariant the next one needs |
| Curve25519.ScalarBit | src/curve25519.c:214-215 | bit pos of the scalar bytes is bit pos of the number they encode |
| Curve25519.LadderLoop | src/curve25519.c:213-240 | all 255 iterations are the ladder run of RFC 7748 from bit 254 down |
| Curve25519.MainLoop | src/curve25519.c:186-244 | work and work1 end as the X and Z of the ladder, squeezed |
| Curve25519.FPowAdd | src/curve25519.c:261-329 | a^e * a^f = a^(e+f) mod p, the law the addition chain rests on |
| Curve25519.PowRun | src/curve25519.c:276-321 | n squarings (in pairs through two buffers) raise to the power 2^n |
| Curve25519.ChainStart | src/curve25519.c:261-267 | the first steps of the chain give the powers 11 and 2^5 - 1 |
| Curve25519.ChainTo250 | src/curve25519.c:300-322 | the middle of the chain gives the power 2^250 - 1 |
| Curve25519.ChainExponent | src/curve25519.c:322-329 | the exponents add up to 2^255 - 21 = p - 2 |
| Curve25519.Recip | src/curve25519.c:247-330 | the result is z^(p - 2) mod p, squeezed |
| Curve25519.EncodingUnique | src/curve25519.c:352-355 | there is only one 32-byte little-endian encoding of a number |
| Curve25519.LoadScalar | src/curve25519.c:339-343 | the scalar is clamped as in RFC 7748 |
| Curve25519.Curve25519 | src/curve25519.c:333-356 | for every scalar and point the 32 output bytes are the unique encoding in [0, p) of the X25519 function of RFC 7748, which is the x-coordinate of the multiple of the point (bit 255 ignored) by the scalar with bits 0, 1, 2, 255 cleared and bit 254 set |
| Montgomery.DoubleHalf | src/curve25519.c:228-235 | modulo p a ladder step gives x2 = (x2^2 - z2^2)^2 and z2 = 4 x2 z2 (x2^2 + 486662 x2 z2 + z2^2) |
| Montgomery.AddHalf | src/curve25519.c:224-239 | and x3 = 4 (x2 x3 - z2 z3)^2 and z3 = 4 x1 (x2 z3 - z2 x3)^2 |
| Montgomery.ChordIdentity | src/curve25519.c:224-239 | the polynomial identity behind the chord rule, over the integers |
| Montgomery.DoubleIsTangent | src/curve25519.c:228-235 | on points of y^2 = x^3 + 486662 x^2 + x the doubling form is the tangent rule |
| Montgomery.ChordsMultiply | src/curve25519.c:224-239 | the x-coordinates of sum and difference by the chord rule multiply to ((x1 x2 - 1) / (x1 - x2))^2, without the division |
| Montgomery.DiffAddIsChord | src/curve25519.c:224-239 | so the addition form is the chord rule whenever the difference has x-coordinate x1 |
| Montgomery.SettledStep | src/curve25519.c:213-240 | with its swaps a step takes the pair (n, n + 1) to (2 n, 2 n + 1) or (2 n + 1, 2 n + 2) by the two forms |
| Montgomery.RunMultiplies | src/curve25519.c:186-244 | after the bits down to t the ladder holds the multiples k >> t and (k >> t) + 1, defined without swaps or bits |
| Montgomery.ScalarIs | src/curve25519.c:339-343 | the scalar is 2^254 + ((v mod 2^254) rounded down to a multiple of 8) |
| Montgomery.PointIs | src/curve25519.c:344-347 | the point is (v mod 2^255) mod p |
| Montgomery.X25519Is | src/curve25519.c:333-356 | X25519 is x / z of that multiple, as x z^(p - 2) |
| Fips197.TablesForOk | src/aes.c:1085-1086 | the laws the AES results rest on hold of exclusive or, multiplication by x and every S-box with an inverse |
| Fips197.Tables.InvMixColumnInverse | src/aes.c:1085-1086 | InvMixColumns undoes MixColumns on every column |
| Fips197.Tables.InvMixColumnAdds | src/aes.c:1085-1086 | InvMixColumns is linear, which the equivalent inverse cipher needs |
| Fips197.Tables.DescribedUndoable | src/aes.c:1117-1172 | the rounds of the decryption undo the rounds of the encryption one by one, in both the direct and the equivalent form |
| Fips197.Iterated.InvCipherUndoes | src/aes.c:1117-1214 | the inverse cipher undoes the cipher for any round keys and any number of rounds |
| Fips197.Iterated.EqInvCipherUndoes | src/aes.c:1088-1214 | with the reversed, transformed schedule the equivalent inverse cipher is the inverse cipher and undoes the cipher |
| AesTables.TableRoundIs | src/aes.c:1119-1123 | a table round is SubBytes, ShiftRows, MixColumns and AddRoundKey |
| AesTables.TableDecRoundIs | src/aes.c:1168-1172 | a table decryption round is InvSubBytes, InvShiftRows, InvMixColumns and AddRoundKey |
| AesTables.LastRoundIs | src/aes.c:1156-1164 | the masked lookups of the last round are SubBytes, ShiftRows and AddRoundKey |
| AesTables.LastDecRoundIs | src/aes.c:1205-1213 | the masked lookups of the last decryption round are InvSubBytes, InvShiftRows and AddRoundKey |
| AesTables.InvMixTableIs | src/aes.c:1086-1086 | INVMIXCOLRK, a lookup through S-box and inverse tables, is InvMixColumn |
| AesTables.RconTableIs | src/aes.c:981-984 | the ten constants of the table are the powers of x in GF(2^8) |
| Vectors.ShiftRowsIs | src/aes.c:1119-1123 | row r of column c comes from column c + r |
| Vectors.MixColumnVector | src/aes.c:1119-1123 | the column d4 bf 5d 30 of appendix B of FIPS 197 becomes 04 66 81 e5 |
| Vectors.ExpansionVector | src/aes.c:1012-1029 | word 4 of appendix A.1 of FIPS 197 |
| Aes.RotatedWord | src/aes.c:1014-1020 | the masked lookups of the key schedule are RotWord, SubWord and the round constant |
| Aes.SubstitutedWord | src/aes.c:1069-1074 | the middle word of a 256-bit turn is SubWord without rotation |
| Aes.Setup128 | src/aes.c:1012-1029 | ten turns write words 4..43 of the schedule and nothing beyond |
| Aes.Setup192 | src/aes.c:1032-1051 | eight turns, the last one short, write words 6..51 and nothing beyond |
| Aes.Setup256 | src/aes.c:1054-1080 | seven turns, the last one short, write words 8..59 and nothing beyond |
| Aes.KeySetupEnc | src/aes.c:1003-1083 | for 128, 192 and 256 bits exactly 4 (Nr + 1) words are written, equal to the key expansion of section 5.2 of FIPS 197; other sizes return 0 |
| Aes.ReverseRoundKeys | src/aes.c:1097-1102 | the in-place swaps reverse the order of the round keys and touch nothing else |
| Aes.InvMixMiddle | src/aes.c:1105-1111 | all round keys but the first and the last are transformed |
| Aes.KeySetupDec | src/aes.c:1091-1114 | the result is the decryption schedule of section 5.3.5 of FIPS 197 for the same key |
| Aes.EncryptBlock | src/aes.c:1126-1166 | the unrolled 10, 12 or 14 rounds are the cipher of FIPS 197 |
| Aes.DecryptBlock | src/aes.c:1175-1214 | the unrolled rounds are the equivalent inverse cipher |
| Aes.Encrypt | src/aes.c:1126-1166 | the bytes of the block are replaced by the cipher of the block, also in place; the rest of the buffer is untouched |
| Aes.Decrypt | src/aes.c:1175-1214 | the same for decryption |
| Aes.Context.RoundTrip | src/aes.c:1003-1214 | in a context set up for any key of 16, 24 or 32 bytes decryption undoes encryption of every block |
| Aes.Context.EcbDecrypt | src/aes.c:1220-1225 | every block that the encryption schedule enciphered is recovered |
| Aes.Context.CbcRoundTrip | src/aes.c:1241-1280 | CBC with AES decrypts what it encrypted, for every key size, IV and message |
| Aes.Init | src/aes.c:1283-1313 | returns 0 and both schedules for 16, 24 and 32 bytes, -1 otherwise |
| Cbc.BlockCipher.DecryptedEncrypted | src/aes.c:1241-1280 | for every block permutation CBC decryption undoes CBC encryption |
| Cbc.BlockCipher.EncryptedDecrypted | src/aes.c:1241-1280 | and the other way round |
| Cbc.BlockCipher.EncryptedSplits | src/aes.c:1241-1259 | the first block is chained to the IV, and encryption goes on after any blocks with the last ciphertext block as IV |
| Cbc.BlockCipher.DecryptedSplits | src/aes.c:1262-1280 | so does decryption |
| Cbc.EncryptLoop | src/aes.c:1241-1259 | the plain loop writes the CBC encryption of the whole blocks, also in place, and returns their length |
| Cbc.EncryptNi | src/aes.c:393-432 | the AES-NI loop writes the same and returns the remainder |
| Cbc.DecryptLoop | src/aes.c:1262-1280 | the plain loop writes the block-wise CBC decryption, also in place |
| Cbc.DecryptRails | src/aes.c:435-584 | four rails, then two, then one write the same for any number of blocks, also in place, and leave the rest of the buffer |
| Rfc8439.PlainOk | src/cc20.c:270-270 | the shift-or rotation of the plain form is rotation |
| Rfc8439.SseOk | src/cc20.c:96-101 | so is the shift-xor rotation of the SSE2 form |
| Rfc8439.Ssse3Ok | src/cc20.c:108-111 | so are the byte shuffles of the SSSE3 form |
| Rfc8439.Ops.CryptedTwice | src/cc20.c:352-397 | applying the key stream twice is the identity |
| ChaCha20.OddRoundLanes | src/cc20.c:131-136 | the row operations of an odd round are a quarter round in every lane |
| ChaCha20.DoubleRoundAgrees | src/cc20.c:121-145 | the row-permuted double round is the column and diagonal round of RFC 8439 |
| ChaCha20.CounterRow | src/cc20.c:169-190 | adding ONE and TWO to the counter row advances the counter once and twice, and ONE may be added last |
| ChaCha20.BlockRows | src/cc20.c:196-210 | ten double rounds and the final addition give the block of RFC 8439 |
| ChaCha20.SecondBlock | src/cc20.c:169-184 | the second of two parallel blocks is the block of the next counter |
| ChaCha20Crypt.CryptRows | src/cc20.c:153-251 | for every length the 128-byte, 64-byte and tail cases write input XOR key stream, also in place |
| ChaCha20Crypt.TailDown | src/cc20.c:244-247 | the tail, written from its last byte down |
| ChaCha20Crypt.MagicConstant | src/cc20.c:160-162 | the string "expand 32-byte k" holds the four constants of RFC 8439 |
| ChaCha20Plain.QuarterRoundAt | src/cc20.c:272-276 | the in-place quarter round is that of RFC 8439 on four words and leaves the others |
| ChaCha20Plain.Context.BlockNext | src/cc20.c:291-343 | the key stream array becomes the block of the present counter, and the counter advances modulo 2^32 |
| ChaCha20Plain.Context.InitBlock | src/cc20.c:260-267 | constants, key, counter and nonce are laid out as in RFC 8439 |
| ChaCha20Plain.Context.Crypt | src/cc20.c:352-397 | for every length the output is input XOR block(counter + i/64)[i%64], also in place |
| ChaCha20Forms.SameCrypted | src/cc20.c:121-397 | the SSE2, SSSE3 and plain C forms compute the same function of key, IV and message |
| Vectors.QuarterRoundVector | src/cc20.c:272-276 | the vector of section 2.1.1 of RFC 8439 |
| Vectors.InitialStateVector | src/cc20.c:260-267 | the initial state of section 2.3.2 of RFC 8439 |
| Vectors.TwentyRounds | src/cc20.c:291-343 | ten double rounds, columns before diagonals, then the initial state is added |
| Vectors.BumpSplits | src/cc20.c:352-397 | advancing the counter n + 1 times is advancing it once, then n times |
| HeaderEncryption.Encrypt | src/header_encryption.c:92-131 | the in-place steps make the re-ordered, masked and encrypted packet; packets shorter than 24 bytes are refused unchanged; a header length below 16 leads outside the packet |
| HeaderEncryption.Decrypt | src/header_encryption.c:37-89 | on every buffer: a header length beyond the packet is rejected with nothing changed; else the packet is accepted if and only if the hash of the bytes left begins with the first four bytes of the decrypted IV, with the stamp it holds, and the bytes left are the name and what was decrypted |
| HeaderEncryption.RoundTrip | src/header_encryption.c:37-131 | for every packet with its community name, header length from 20 up to the packet length, stamp and random word, decryption succeeds, restores every byte and returns the stamp |
| HeaderEncryption.SealedReads | src/header_encryption.c:92-131 | what a receiver with the keys reads in a sealed packet: checksum, masked stamp and random word in the IV, 0x6E320000 + header length, the packet without its name |
| HeaderEncryption.AlteredExactly | src/header_encryption.c:37-89 | a sealed packet altered from the header length on is rejected unless the hash of what it then reads agrees with the original one in its first four bytes |
| HeaderEncryption.ShortHeaderFails | src/header_encryption.c:46-52 | for each header length from 16 to 19 there are ciphers with which no packet survives: the receiver takes a header length below 16 |
| HeaderEncryption.RoundTripExactly | src/header_encryption.c:37-131 | for header lengths from 16 up to the packet length, the round trip holds for all ciphers, stamps and random words if and only if the header has at least 20 bytes |
| AsciiCode.BinToAscii | src/auth.c:43-69 | writes the ceil(8n/6) code characters and a terminating 0 |
| AsciiCode.GroupValue | src/auth.c:43-69 | four characters stand for three bytes: the same number in base 64 and in base 256 |
| AsciiCode.AsciiToBin | src/auth.c:72-107 | for every string writes floor(6n/8) bytes, those of the decoder automaton, and no more |
| AsciiCode.EntryOfChar | src/auth.c:87-93 | every alphabet character passes the test and yields its six bits |
| AsciiCode.PassesWrongly | src/auth.c:88-96 | exactly which characters outside the alphabet pass the validity test |
| AsciiCode.RoundTrip | src/auth.c:28-107 | decoding the code of any byte string gives exactly that string, and all characters are of the alphabet |
| MergeSort.SortCorrect | include/uthash.h:1002-1084 | bottom-up merging gives a sorted, stable permutation for every total preorder |
| MergeSort.SortedUnique | include/uthash.h:1002-1084 | there is only one sorted, stable permutation |
| MergeSort.SortIsInsertionSort | include/uthash.h:1002-1084 | for every total preorder the passes give the list that insertion sort gives |
| ListSort.SplitRun | include/uthash.h:1018-1027 | q is advanced over exactly the first min(insize, length) elements |
| ListSort.MergePair | include/uthash.h:1018-1070 | one turn links the stable merge of the next two runs to the list built so far |
| ListSort.OnePass | include/uthash.h:1012-1074 | a pass leaves next and prev consistent for the merged list, head and tail correct, and counts its merges |
| ListSort.SortList | include/uthash.h:1002-1084 | the passes end, and next, prev, head and tail are those of the sorted list |
| HashChains.BucketIsMask | include/uthash.h:460-463 | hashv & (num_buckets - 1) is the remainder by the number of buckets, for every power of two up to 2^32 |
| HashChains.CeilDivLeast | include/uthash.h:958-960 | (n >> log2(2b)) plus one for a remainder is the least k with k times the new number of buckets at least n |
| HashChains.ExpandMultCovers | include/uthash.h:968-973 | expand_mult stays 0 exactly for chains within the ideal length; otherwise its product with the ideal length bounds the chain but for one item |
| HashChains.TotalIsItems | include/uthash.h:545-592 | the chain lengths add up to the number of items |
| Uthash.Table.Find | include/uthash.h:183-203 | returns the item with the key, or NULL exactly when there is none |
| Uthash.Table.Add | include/uthash.h:426-445 | the item is appended to the application order with its key, sits in its bucket, and all invariants hold, also across a doubling |
| Uthash.Table.AddToBucket | include/uthash.h:879-898 | the item is pushed on its chain, and the table doubles when the chain is over its threshold and doubling is not switched off |
| Uthash.Table.ExpandBuckets | include/uthash.h:945-995 | doubling keeps items and order, puts each item in the bucket of its hash value for the doubled table, and sets ideal_chain_maxlen and nonideal_items |
| Uthash.Table.Redistribute | include/uthash.h:961-982 | every handle is moved to its new chain, with the sum of max(0, count - ideal) counted |
| Uthash.Table.DelInBucket | include/uthash.h:901-914 | the item leaves its chain, count and head are right |
| Uthash.Table.Delete | include/uthash.h:480-507 | the item leaves list and chain; deleting the last one empties the table |
| Uthash.Table.Sort | include/uthash.h:1002-1084 | the application order becomes that of the merge passes, a stable sort for every total preorder; bucket chains untouched |
| Uthash.Table.Iterate | include/uthash.h:1172-1174 | HASH_ITER meets exactly the items, in application order |
| Uthash.Table.constructor | include/uthash.h:242-272 | an empty, valid table over a pool of nodes |
| UthashRuns.FindAgrees | include/uthash.h:183-203 | what HASH_FIND returns is what the plain map holds |
| UthashRuns.RemoveAt | include/uthash.h:480-507 | unlinking the item at its position is removing it from the plain list |
| UthashRuns.Run | include/uthash.h:183-507 | after any sequence of adds with fresh keys, deletes, finds and sorts every answer is that of a plain map, and the items are met in the order of a plain list with append, remove and insertion sort |
| Transport.EvolvesJoins | src/edge_utils.c:800-850 | what may change in a fallback episode composes over steps |
| Transport.RecoveryIsDead | src/edge_utils.c:823-850 | edge_mark_udp_recovered never changes anything, since a fallback is always sticky |
| Transport.ProbeIsDead | src/edge_utils.c:2656-2668 | the UDP probe of a fallback is never sent |
| Transport.ConnectKeeps | src/edge_utils.c:1090-1115 | connecting changes sockets only, never the transport or the fallback |
| Transport.SwitchStarts | src/edge_utils.c:1119-1159 | exactly when a fallback episode starts, with a full budget and sock an open TCP socket to the current supernode; a failed attempt leaves transport, budget and request as they were |
| Transport.FailureOutcome | src/edge_utils.c:2061-2111 | in a fallback a failed send either is a REGISTER_SUPER that pays one soft retry and stays, or returns to UDP with the request cleared |
| Transport.SockKeeps | src/edge_utils.c:2125-2182 | sending prefix and payload ends an episode only if a send fails; without a failure nothing changes |
| Transport.RegisterOutcome | src/edge_utils.c:2309-2378 | a REGISTER_SUPER that is attempted and fails in a fallback stays exactly when there is budget, which falls by one for prefix and payload together; else UDP and no request |
| Transport.OtherOutcome | src/edge_utils.c:2125-2182 | any other packet that fails ends the fallback with the request cleared, unless it is not attempted: without a descriptor, or data while the fallback is being established |
| Transport.AllKeep | src/edge_utils.c:2500-2523 | the same over all packets that a registration sends to peers, control or not |
| Transport.AttemptOutcome | src/edge_utils.c:2670-2735 | with no attempts left: deferred exactly on recent traffic, else a fallback or the next supernode |
| Transport.NextTried | src/edge_utils.c:2698-2734 | the next supernode becomes current without a change of transport, and sockets are closed every 15th (or third) time |
| Transport.UpdateOutcome | src/edge_utils.c:2621-2785 | the periodic registration keeps the invariant and ends an episode only through a failed send, with UDP active and the request cleared |
| Transport.UpdateTiming | src/edge_utils.c:2621-2785 | nothing happens before its time; a fallback starts or the supernode changes only with no attempts left and no recent traffic |
| Transport.DeadKcpOutcome | src/edge_utils.c:898-929 | a dead KCP session starts an episode exactly when that is allowed, otherwise recycles the UDP socket, and never ends an episode |
| Transport.ChangeOutcome | src/edge_utils.c:2430-2445 | moving to a better supernode ends an episode only through a failed send |
| Transport.BootstrapOutcome | src/edge.c:1256-1271 | a bootstrap timeout starts a fallback exactly when that is allowed, else the next supernode is tried; it never ends one |
| Transport.BootstrapEnds | src/edge.c:1325-1332 | the end of the bootstrap keeps transport and fallback, clears budget and request |
| Transport.MessageOutcome | src/edge_utils.c:3806-3930 | REGISTER_SUPER_NAK clears the request and nothing else; after RE_REGISTER_SUPER the next timer event registers |
| Transport.AckOutcome | src/edge_utils.c:3690-3753 | an acknowledgement over either transport keeps transport and fallback, clears budget and request, and restores the attempts: 1 over TCP, 3 over UDP |
| Transport.ClosedOutcome | src/edge_utils.c:4019-4042 | a closed connection or an oversized frame ends the episode |
| Transport.NextKeeps | src/edge_utils.c:800-1196 | every event keeps: TCP is active iff forced or in fallback, fallback is sticky, allowed and not forced, budget at most two and only in fallback; an episode ends only if the connection breaks |
| Transport.EndOutcome | src/edge_utils.c:800-820 | whatever ends a fallback leaves UDP active, no budget and, unless a new registration went out over UDP, no request |
| Transport.RegistrationFits | src/edge_utils.c:2309-2378 | where in an event the REGISTER_SUPER is sent: what comes before and after it are steps of the same kind |
| Transport.FailedRegistrationPays | src/edge_utils.c:2061-2111 | an event whose REGISTER_SUPER failed in a fallback goes on in it exactly if there was budget and no later send failed, and has then paid for it |
| Transport.RunKeeps | src/edge_utils.c:1331-1343 | the invariant holds in every state of every run |
| Transport.FallbackLasts | src/edge_utils.c:823-850 | over any stretch of a run without a broken TCP connection a fallback goes on |
| Transport.EpisodeUnbroken | src/edge_utils.c:1133-1152 | between two moments of one episode the edge was in it all along, and its budget only fell |
| Transport.AllPaidFor | src/edge_utils.c:2061-2111 | in every state of every run the failures survived in an episode and its budget together are at most two |
| Transport.AtMostTwoSurvived | src/edge_utils.c:2061-2111 | in every run and every fallback episode the number of events whose REGISTER_SUPER failed while the episode went on is at most two |
| FallbackExact.Conditions | src/edge_utils.c:2621-2696 | when a timer event is due, when recent traffic puts a fallback off, when one may start, in terms of fields and inputs |
| FallbackExact.AllExactly | src/edge_utils.c:2125-2182 | packets sent one after the other end a fallback exactly if one is attempted and fails; otherwise nothing changes |
| FallbackExact.TimerExactly | src/edge_utils.c:2621-2785 | a due timer event in a fallback: without a socket it goes on; else it goes on, with the request pending, exactly if the REGISTER_SUPER did not fail or had budget and no other attempted packet failed; otherwise UDP, no request |
| FallbackExact.StartExactly | src/edge_utils.c:2695-2785 | the same for the timer event that starts a fallback, with two soft retries |
| FallbackExact.UdpTimerExactly | src/edge_utils.c:2621-2785 | a due timer event over UDP leaves a request pending unless it was put off, counts the attempts down from three and changes the supernode exactly when they are used up |
| FallbackExact.ResortedExactly | src/edge_utils.c:2430-2445 | moving to a better supernode, a fallback goes on exactly if the unregister was not attempted or succeeded and the REGISTER_SUPER was not attempted, succeeded or had budget |
| ActiveSocket.ConnectOpens | src/edge_utils.c:1090-1115 | which sockets supernode_connect leaves open, and exactly when it gets as far as the sync |
| ActiveSocket.ConnectSock | src/edge_utils.c:1090-1115 | sock stays that of the active transport unless the TCP socket in use was to another supernode and a needed socket cannot be opened; with everything opening it is always put right |
| ActiveSocket.FailedSock | src/edge_utils.c:2061-2111 | after a failed TCP send sock is that of the active transport, whatever it was before |
| ActiveSocket.AttemptSock | src/edge_utils.c:2670-2735 | giving up on a supernode leaves sock behind only with forced TCP, and exactly when |
| ActiveSocket.ReadySock | src/edge_utils.c:2741-2753 | what a registration then sends over TCP goes through the TCP socket |
| ActiveSocket.NextSock | src/edge_utils.c:705-724 | every event keeps: if the active transport has a socket, sock is it; and from a state in step, the next is in step if and only if the event is not one of those listed |
| ActiveSocket.RunSock | src/edge_utils.c:705-724 | in every state of every run, if the active transport has a socket then sock is that socket |
| ActiveSocket.AlwaysSyncedExactly | src/edge_utils.c:705-724 | over every run sock is the descriptor of the active transport in all states if and only if none of those events occurs |
| ActiveSocket.ClosedTcpInUse | src/edge_utils.c:1099-1108 | a run in which TCP is active and sock is a closed descriptor |
| ActiveSocket.UdpInUseForTcp | src/edge_utils.c:1099-1108 | a run in which, by reuse of the number, TCP is active and sock is the UDP socket |
| ActiveSocket.HelpedStep | src/edge_utils.c:2621-2785 | a due registration for which the sockets open puts sock right or uses up one attempt over UDP |
| ActiveSocket.Recovers | src/edge_utils.c:2621-2785 | from every state, one such registration more than there are attempts left puts sock right |
| SupernodeSockets.Sockets.ConnectTcp | src/edge_utils.c:1030-1087 | an open socket to the current supernode is kept, any other closed; success means a socket to the current supernode |
| SupernodeSockets.Sockets.Connect | src/edge_utils.c:1090-1115 | exactly when it succeeds; success means the right transport active and sock its open socket; failure leaves sock and transport although the TCP socket may be closed |
| SupernodeSockets.Sockets.RecycleUdp | src/edge_utils.c:1173-1196 | the UDP socket is a new one or none, and sock follows only if it could be opened |
| TapQueue.ToDropLeast | src/edge_utils.c:525-529 | the number of packets dropped is the least that makes room, and never all of them |
| TapQueue.Queue.MakeRoom | src/edge_utils.c:525-529 | exactly that many of the oldest packets go |
| TapQueue.Queue.Enqueue | src/edge_utils.c:495-561 | counters match, limits hold, the packet is always taken, and a wake-up is due exactly when the queue was empty |
| TapQueue.Queue.Dequeue | src/edge_utils.c:581-610 | the head leaves, counters match |
| TapQueue.StepKeeps | src/edge_utils.c:405-641 | every step of either thread keeps: sent, dropped and queued packets partition what was enqueued in order, limits hold, and the main thread sleeps on a non-empty queue only with a wake-up unread or about to be sent |
| TapQueue.RunKeeps | src/edge_utils.c:405-641 | so they do in every state of every interleaving |
| TapQueue.HandedPartition | src/edge_utils.c:495-629 | the packets handed over by the reader are, in order, those sent or dropped followed by those queued |
| TapQueue.FlushSends | src/edge_utils.c:613-629 | a flush with the reader silent sends the first packets in order, as many as its budget allows, and leaves the rest |
| TapQueue.TurnSends | src/edge_utils.c:4145-4235 | a turn of the main loop with the reader silent sends exactly the first min(128, n) of n packets, in order |
| TapQueue.EightTurnsSendAll | src/edge_utils.c:613-629 | eight such turns send everything that is queued |
| TapQueue.DropsWhenFull | src/edge_utils.c:525-529 | a packet has to go exactly if 1024 are queued or 4 MiB would be exceeded |
| TapQueue.MarksExactly | src/edge_utils.c:495-629 | over every run the removals marked sent are those of the main thread, the others those of a full queue |
| TapQueue.System.ReaderQueue | src/edge_utils.c:495-561 | the reader's locked step is that of the machine |
| TapQueue.System.MainDequeue | src/edge_utils.c:613-629 | the main thread's flushing of one packet is that of the machine |
| TapQueue.Run | src/edge_utils.c:405-641 | under every schedule the threads end where the machine ends, with the invariant; the packets marked sent are exactly those the main thread took, the others exactly those a full queue made necessary; and if every act was possible in its turn nothing handed over is lost, duplicated or reordered |
| TcpFraming.ExactlyTheGood | src/edge_utils.c:2159-2171 | the payloads delivered are exactly those framed, and the receiver is at a boundary again, if and only if each has 1 byte up to the limit |
| TcpFraming.DeliveredGood | src/edge_utils.c:4014-4053 | whatever arrives, only payloads within the limits are delivered as long as reads stay inside the buffer |
| TcpFraming.FramesDelivered | src/edge_utils.c:4014-4053 | from a frame boundary good frames are delivered in order, ending at a boundary |
| TcpFraming.EmptyFrameWedges | src/edge_utils.c:4029-4034 | an empty payload stops the receiver for good |
| TcpFraming.WrapLeavesBuffer | src/edge_utils.c:4014-4034 | a prefix of 65534 or 65535 makes the 16-bit sum wrap, and the next read leaves the buffer |
| TcpFraming.LeavesBufferExactly | src/edge_utils.c:4014-4053 | from a frame boundary every read stays inside the buffer if and only if no prefix of 65534 or 65535 is met |
| TcpFraming.ShutSurvives | src/edge_utils.c:4019-4042 | which counters a broken connection can leave, datagrams in between included |
| TcpFraming.HarmlessReconnect | src/edge_utils.c:4014-4053 | from every such pair of counters, the next connection delivers every sequence of good frames if and only if they are those of a frame boundary |
| TcpFraming.OversizedReconnect | src/edge_utils.c:4035-4042 | after an oversized frame outside forced TCP the counters stay, and the next connection leaves the buffer at once exactly if the prefix exceeds the packet buffer size |
| TcpFraming.HarmlessDatagramExactly | src/edge_utils.c:3959-3966 | a datagram received into the buffer within a good frame, whatever it holds, leaves the frame delivered and the receiver ready if and only if nothing or just the header had been read |
| TcpFraming.BodyHarmed | src/edge_utils.c:3959-3966 | further on, its bytes are delivered in place of the payload's |
| TcpFraming.Receiver.Receive | src/edge_utils.c:4014-4053 | a read of any size has the effect of its bytes one by one; a read of nothing looks at the header again |
| TcpFraming.Receiver.Fail | src/edge_utils.c:4019-4027 | a failed read closes the connection and keeps the counters |
| TcpFraming.Receiver.Reopen | src/edge_utils.c:4016-4018 | the next connection reads with the counters that are there |
| TcpFraming.Receiver.ReceiveDatagram | src/edge_utils.c:3959-3966 | the first bytes of the buffer become those of the datagram, and the counters stay |
| TcpFraming.Transfer | src/edge_utils.c:4014-4053 | for every way the stream is cut the payloads handed over are those framed, and as many reads as bytes leave nothing unread |
| KcpPacket.GetConv | src/kcp_bridge.c:227-263 | accepts exactly the non-empty concatenations of well-formed segments of one conversation, and returns it |
| KcpPacket.IsKcpExactly | src/kcp_bridge.c:227-263 | the scan succeeds exactly for packets of some conversation, and then for the one in the first header |
| KcpPacket.WellFormedMeans | src/kcp_bridge.c:240-256 | a segment has 24 header bytes, a command from 81 to 84 and its payload length in bytes 20 to 23 |
| KcpPacket.Scan | src/kcp_bridge.c:240-259 | the loop ends, never reads outside the buffer, and accepts exactly the buffers that parse as segments of the conversation |
| KcpPacket.UniqueDecomposition | src/kcp_bridge.c:240-256 | there is one way to cut a packet into segments |
| KcpSessions.TagReadsBack | src/kcp_bridge.c:48-63 | the tag is bit 31, the other bits are kept unless they are all 0; it can be read back, and the channels never share a conversation |
| KcpSessions.NextKeeps | src/kcp_bridge.c:333-509 | every operation keeps: a channel is confirmed exactly when its session is active and has accepted two packets since setup, and its conversation carries the tag |
| KcpSessions.RunKeeps | src/kcp_bridge.c:333-509 | so it is in every state of every run, the accepted packets being counted over the operations |
| KcpSessions.AcceptsExactly | src/kcp_bridge.c:429-509 | a datagram is taken exactly if it is from the current supernode, a packet of the conversation of an active session with it, and the library accepts it |
| KcpSessions.SetupExactly | src/kcp_bridge.c:333-395 | a setup without a live session leaves a new unconfirmed session with the remote, its conversation tagged, seen now, or none |
| KcpSessions.OtherChannel | src/kcp_bridge.c:333-509 | a packet changes nothing of the other channel; a setup changes neither the other channel nor a live session |
| KcpSessions.Edge.Setup | src/kcp_bridge.c:333-395 | a live session is kept, anything else is replaced by an unconfirmed one or by none, and what is returned |
| KcpSessions.Edge.Input | src/kcp_bridge.c:429-509 | which datagrams are taken, by which session, and that the second accepted packet confirms |
| KcpSessions.RunEdge | src/kcp_bridge.c:333-509 | a run ends where the machine ends; confirmed means active with two packets accepted since setup, and the channels never share a conversation |
| KcpSessions.DeliveredKeeps | src/kcp_bridge.c:644-789 | a packet leaves at most one session per remote in its table, all of the channel |
| KcpSessions.OthersUnaffected | src/kcp_bridge.c:644-789 | a packet affects the session of no other remote |
| KcpSessions.DeliveredExactly | src/kcp_bridge.c:644-789 | a packet of a live session leaves its table as it is, but for the time if the library accepts it; any other leaves the remote only a session of its own, made now and accepted |
| KcpSessions.RefusedKeeps | src/kcp_bridge.c:746-789 | a packet of a live session that the library refuses changes nothing |
| KcpSessions.Supernode.FindOrCreate | src/kcp_bridge.c:644-710 | the table then holds a session for this remote and conversation, at the index returned; when one is created and when none |
| KcpSessions.Supernode.ProcessInput | src/kcp_bridge.c:746-789 | an accepted packet leaves its session seen now; one created in vain is dropped |
| KcpSessions.SendOutcome | src/kcp_bridge.c:582-614 | a dead session is dropped |
| KcpSessions.SendExactly | src/kcp_bridge.c:582-614 | by the tables before: a live session of the asked channel is found with nothing changed; else a live one of the other channel, whose table stays; else none |
| KcpSessions.SendOthers | src/kcp_bridge.c:582-614 | sending touches the session of no other remote |
| KcpSessions.Supernode.FindSend | src/kcp_bridge.c:582-614 | a live session of the asked channel is found and nothing changes; else exactly a live one of the other channel, whose table stays; a dead one is gone |
| KcpSessions.KeptExactly | src/kcp_bridge.c:824-835 | a sweep keeps exactly the sessions that are neither dead nor idle for more than 120 seconds |
| KcpSessions.Supernode.Sweep | src/kcp_bridge.c:808-837 | both tables become what is kept of them, in order |
| KcpSessions.SnRunKeeps | src/kcp_bridge.c:644-837 | in every state of every run a table has at most one session per remote, all of its channel |
| KcpSessions.RunSupernode | src/kcp_bridge.c:644-837 | a run of the supernode ends where the machine ends, with that invariant |

## Left out

- OpenSSL branches of the ciphers and the AES-NI instructions: foreign code; of the AES-NI form only the CBC block structure is modelled.
- Speck, Pearson and Twofish: parameters of the model or absent; only their headers are used here.
- The literal 256-entry tables of AES and that the S-box is the one of FIPS 197: the tables are their defining equations, the S-box any invertible one.
- generate_public_key and the other key derivation of src/auth.c: calls of modelled functions.
- That 2^255 - 19 is prime: results are stated as powers and residues, so it is not needed.
- Big-endian hosts for ChaCha20: words are little-endian in memory, as on every platform the SSE2 form runs on.
- Cbc.EncryptLoop: buffers are arrays of 16-byte blocks, so overlapping buffers at different offsets are not captured.
- uthash memory exhaustion, Bloom filters, HASH_SELECT, HASH_CLEAR, the in-order add macros and the hash functions: the hash is any function, allocation succeeds.
- Uthash.Table.Add: that the key is fresh is the caller's duty, as in the source; the table does not check it.
- Uthash.Table.ExpandBuckets: the doubling of num_buckets is not wrapped at 32 bits.
- Membership of known_peers and pending_peers, multicast discovery, TUN/TAP devices, DNS resolution, the management port and the command line.
- KCP library internals: their results are inputs.
- Transport.NextKeeps: the fields of the edge that decide its transport are one value and the operations on them functions; update in place is kept for the socket functions in `SupernodeSockets`.
- ActiveSocket.NextSock: what the operating system does with a closed descriptor; the outcome of each send is an input.
- TapQueue.Run: sending the wake-up datagram is assumed to succeed.
- TcpFraming.Receiver.Receive: what memory holds after a read outside the buffer; the model ends in a state of its own.
- KcpPacket.GetConv: buffers of 4 GiB and more, where the 32-bit sum of header and length would wrap.
- HeaderEncryption.Encrypt: what memory holds after a header length below 16, where the length of the encrypted part wraps; the model reports it as out of bounds.
- src/json.c, src/edge_management.c, src/hexdump.c, src/transform_null.c: text handling and trivial copies.
