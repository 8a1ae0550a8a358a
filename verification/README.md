# A verified model of the QSMP cryptographic code

The QSC library under QSMP contains the arithmetic and the state machines on which the protocol rests. This
project models them in Dafny and proves what they are for:

- **Dilithium** (reference code, all three modes): the number-theoretic transform, rounding with hints, bit
  packing down to the unrolled lines, sampling from a byte stream, and key generation, signing and verification
  on bytes. Verification accepts whatever signing returns, and exactly what the ring equation and the hash allow.
- **Kyber** (reference code, all four parameter sets): the incomplete transform, compression, encryption and
  the key encapsulation. Decryption returns the message exactly when the noise is tolerable.
- **Ed25519 and X25519**: field elements in ten limbs, scalars in 21-bit limbs, window and radix-16
  recodings, scalar multiplication over an abelian group, signing and verification, the Montgomery ladder on
  limbs.
- **AES** (portable code), its CBC and counter modes, the authenticated ciphers **HBA-256** and **CSX-512**,
  and the caching generators **CSG** and **HCG**.
- **Falcon**'s modular helpers.

Integers are unbounded; every place where the code relies on wrap-around is written out with a modulus, and
`ScalarWidths`, `FieldWidths`, `DilithiumWidths` and `KyberWidths` show that the other products, the sums on the
way and the carries fit their machine words. Code that works in place is a method or a class on arrays, proved
against a function of the old contents; the properties are lemmas about those functions. Hash functions, stream
ciphers' permutations, MACs and random sources are parameters, so every result holds for any choice of them.

The modules build on each other as follows. `ModArith`, `MachineInts`, `BitPacking`, `BitXor`, `PolyRing`,
`PolyPacking`, `RootTrees`, `NttTheory`, `NttLayers`, `PairRing` and `CoefficientBounds` are shared theory.
`UnrolledPacking` holds the unrolled lines of both lattice codes, and `DilithiumBytes` and `KyberBytes` write and
read keys, signatures and ciphertexts with them. The `Dilithium…` and `Kyber…` modules end in `DilithiumVerify`,
`DilithiumWidths`, `KyberCorrectness`, `KyberKem` and `KyberWidths`; `DilithiumMeaning`, `DilithiumAcceptance` and
`KyberNoise` say what they compute. `Groups`, `ScalarDigits` and `Ed25519Mult` lead to `Ed25519`; `ScalarReduce`,
`ScalarMulAdd` and `ScalarWidths` are its scalars, `Ed25519Signing` puts them together, and `Ed25519Acceptance`
says what is accepted; `FieldLimbs`, `LimbBytes`, `FieldWidths`, `FieldElements` and `X25519` lead to
`LadderLimbs`; `PrimeFields`, `MontgomeryCurve`, `CurveLadder` and `X25519Curve` tie the ladder to the curve.
`AesColumns`, `AesTables`, `RoundCiphers` and `AesBlock` lead to `AesModes`, and `AesField` and `AesEntries`
describe their parts by the field; `CounterStreams` and `AeadRuns` carry `Hba256` and `Csx`; `BlockStreams` and
`ByteCounters` carry `Generators`.

Results in which the code does not do what it is meant to do:

- `KyberKem.RefusedMixesPrekey`: on refusal the comparison's verdict, all ones, reaches a conditional move
  written for 0 or 1, so that only the lowest bit of every byte of the pre-key is overwritten. The lemma gives
  the exact condition under which the secret is made from z as meant; `KyberKem.PrekeyStays` gives, for every
  key, a decapsulation that is not.
- `AesModes.RoundTripIff`: CBC decryption loses the end of an aligned message whose last block parses as
  padding, exactly then; `AesModes.LostByte` shows an input.
- `Hba256.PairedAfterRefusalIff`, `Csx.PairedAfterRefusalIff`: a refused text still moves the receiver's MAC and
  its count of processed bytes, so that sender and receiver are in step afterwards exactly when the length is a
  multiple of 2^64 and the MAC's own state came back. `AeadRuns.AfterRefusal` says exactly when the sender's next
  text is accepted; `GenuineTextRefused`, for both ciphers, shows a genuine text that is refused.
- `KyberReduce.BarrettFitsIff`: the quotient times q fits 16 bits exactly for inputs between -31625 and 31625. The
  result is right outside, too, because the subtraction wraps back.
- `FieldWidths.ShortLongExactly`: the quotient of the final field reduction starts with an `unsigned long`. With 64
  bits that changes nothing; with 32 bits a negative first term comes out 128 too large, and the lemma says exactly
  for which limbs the result is still right. It is for limbs within 1.1 2^25 and 1.1 2^24
  (`FieldWidths.ShortLongFirm`), and not for all within the bounds that the source states
  (`FieldWidths.ShortLongMissed`).

## Model

| member | source | states |
|---|---|---|
| DilithiumReduce.MontgomeryCong | QSMP/QSC/dilithiumbase.c:165-173 | the reduced value times 2^32 is congruent to the input modulo Q, for every integer, wrap-around included |
| DilithiumReduce.MontgomeryBound | QSMP/QSC/dilithiumbase.c:165-173 | for -2^31 Q <= a < 2^31 Q the result is strictly between -Q and Q |
| DilithiumRounding.Power2RoundExact | QSMP/QSC/dilithiumbase.c:194-202 | the split at 13 bits adds up to the input, with a low part in (-2^12, 2^12] and a high part of ten bits |
| DilithiumRounding.DecomposeExact | QSMP/QSC/dilithiumbase.c:204-221 | the fixed-point quotient is the rounded quotient by 2 gamma2 for every a in [0, Q), the last one wrapping to 0; the parts recompose modulo Q and the low one is within gamma2 |
| DilithiumRounding.HintRecovers | QSMP/QSC/dilithiumbase.c:223-273 | for every split of w and every moved low part strictly within 2 gamma2, using the hint on the moved value gives back the high part of w, wrap cases included |
| DilithiumRounding.HintIsNeeded | QSMP/QSC/dilithiumbase.c:223-235 | the hint bit is set exactly when the moved value has another high part |
| DilithiumZetas.TableIsRoots | QSMP/QSC/dilithiumbase.c:127-163 | every entry of the zeta table is 2^32 times the power of 1753 that its tree node demands, modulo Q |
| NttTheory.NttOfMul | QSMP/QSC/dilithiumbase.c:303-327 | for any tree of square roots, the transform of a product in Z_q[X]/(X^n - r) is the product leaf by leaf, modulo q |
| NttTheory.InvNttOfNtt | QSMP/QSC/dilithiumbase.c:329-360 | for any tree of square roots and any depth t, the inverse transform of the transform is 2^t times the input, modulo q |
| NttTheory.NttOfInvNtt | QSMP/QSC/dilithiumbase.c:329-360 | and the mirror image |
| DilithiumNttLoops.NttInPlace | QSMP/QSC/dilithiumbase.c:303-327 | the three nested loops leave in the array the transform of what was there, no intermediate value leaves int32, and inputs below Q end below 9 Q |
| DilithiumNttLoops.InvNttInPlace | QSMP/QSC/dilithiumbase.c:329-360 | the same for the inverse: no sum exceeds 256 Q, and the result is below Q |
| DilithiumNtt.InvNttOfNttIsR | QSMP/QSC/dilithiumbase.c:303-360 | the inverse transform of the transform is 2^32 times the input modulo Q |
| DilithiumNtt.NttMultiplies | QSMP/QSC/dilithiumbase.c:303-360 | transform, multiply pointwise, transform back: the product in Z_Q[X]/(X^256 + 1), for all polynomials |
| BitPacking.PackedBit | QSMP/QSC/dilithiumbase.c:641-925 | in packed bytes, bit c of value i is bit b of byte j exactly when d i + c = 8 j + b |
| BitPacking.UnpackPack | QSMP/QSC/dilithiumbase.c:641-925 | unpacking undoes packing for every width and length that fills whole bytes |
| BitPacking.PackUnpack | QSMP/QSC/dilithiumbase.c:641-925 | packing undoes unpacking, so no two byte strings mean the same values |
| UnrolledPacking.UnrolledIs | QSMP/QSC/dilithiumbase.c:641-925 | a group of unrolled lines, each an or of shifted neighbours cut by a cast or mask, regroups the bits of its elements as the packing with a width does, whenever the lines take the right pieces |
| UnrolledPacking.PackLines13 | QSMP/QSC/dilithiumbase.c:728-764 | the lines of the source for 13 bits take the right pieces; there is such a lemma for every width in use, in both directions |
| UnrolledPacking.UnpackLines13 | QSMP/QSC/dilithiumbase.c:766-815 | the same for the lines that take the 13 bits out again |
| UnrolledPacking.RunGroups | QSMP/QSC/dilithiumbase.c:641-925 | the loop over groups computes the packing, or the unpacking, of the whole polynomial |
| DilithiumHintCodec.DecodeEncodeHints | QSMP/QSC/dilithiumbase.c:1325-1415 | the hint decoder accepts the encoding of binary rows of at most omega ones and returns them |
| DilithiumHintCodec.EncodeDecodeHints | QSMP/QSC/dilithiumbase.c:1360-1415 | whatever the hint decoder accepts is the encoding of what it returns: places in increasing order, ends in order, zeros behind |
| DilithiumPacking.SignatureRoundTrip | QSMP/QSC/dilithiumbase.c:1307-1415 | a signature with in-range z and a hint of at most omega ones is read back from its bytes |
| DilithiumPacking.AcceptedIsCanonical | QSMP/QSC/dilithiumbase.c:1346-1415 | accepted signature bytes are reproduced when what they decode to is packed again |
| DilithiumPacking.SecretKeyRoundTrip | QSMP/QSC/dilithiumbase.c:1239-1305 | a secret key is read back from its bytes |
| DilithiumBytes.WriteSignature | QSMP/QSC/dilithiumbase.c:1307-1344 | writing a signature with the unrolled lines gives the packed signature, so the round trips hold for what the source writes |
| DilithiumBytes.ReadSignature | QSMP/QSC/dilithiumbase.c:1346-1415 | the same for reading, the refusal of a malformed hint included |
| DilithiumBytes.WriteSecretKey | QSMP/QSC/dilithiumbase.c:1239-1271 | the same for writing a secret key |
| DilithiumBytes.ReadSecretKey | QSMP/QSC/dilithiumbase.c:1273-1305 | the same for reading it |
| DilithiumBytes.WritePublicKey | QSMP/QSC/dilithiumbase.c:1205-1220 | the same for writing a public key |
| DilithiumBytes.ReadPublicKey | QSMP/QSC/dilithiumbase.c:1222-1237 | the same for reading it |
| DilithiumBytes.WriteHighBits | QSMP/QSC/dilithiumbase.c:907-925 | the same for the high bits that are hashed |
| DilithiumSampling.RejectUniform | QSMP/QSC/dilithiumbase.c:492-518 | the rejection loop appends the candidates below Q, in order, until the array is full or the bytes are used up |
| DilithiumSampling.UniformPoly | QSMP/QSC/dilithiumbase.c:520-546 | refilling the buffer block by block behind left-over bytes gives the first 256 accepted values of the plain stream, whatever the block size |
| DilithiumSampling.Challenge | QSMP/QSC/dilithiumbase.c:595-639 | the loop computes the shuffle of zeros by the picks, for each place the next byte of the stream that is not above it: the coefficient at the pick moves up and a sign takes its place |
| DilithiumSampling.ChallengeWeight | QSMP/QSC/dilithiumbase.c:595-639 | that shuffle has exactly tau coefficients that are not zero, each 1 or -1 |
| DilithiumSign.Retry | QSMP/QSC/dilithiumbase.c:1500-1592 | the retry loop returns the result of a round before which all were rejected, or nothing when all rounds were |
| DilithiumAlgebra.VerifierSees | QSMP/QSC/dilithiumbase.c:1640-1660 | the verifier's A z - 2^13 c t1 is congruent to the commitment less c s2 plus c t0 |
| DilithiumMeaning.PublicMeans | QSMP/QSC/dilithiumbase.c:1440-1461 | the public polynomial is A s1 + s2 modulo X^256 + 1 and Q, with schoolbook products |
| DilithiumMeaning.CommitmentMeans | QSMP/QSC/dilithiumbase.c:1515-1535 | the commitment is A y |
| DilithiumMeaning.ResponseMeans | QSMP/QSC/dilithiumbase.c:1545-1556 | the response is y + c s1 |
| DilithiumMeaning.VerifierMeans | QSMP/QSC/dilithiumbase.c:1640-1655 | the verifier's polynomial is A z - 2^13 c t1 |
| DilithiumMeaning.Untransformed | QSMP/QSC/dilithiumbase.c:1630-1645 | every row of the matrix, drawn in the transform domain, stands for polynomials |
| DilithiumVerify.RebuiltIsHigh | QSMP/QSC/dilithiumbase.c:1640-1665 | from an honest signature the verifier rebuilds the high bits that the signer hashed |
| DilithiumVerify.VerifyAcceptsSign | QSMP/QSC/dilithiumbase.c:1420-1674 | for every mode, key seed, message and choice of the hash functions, verification accepts every signature that signing returns under the generated key |
| DilithiumVerify.OpenSignedMessage | QSMP/QSC/dilithiumbase.c:1595-1700 | opening a signed message returns the message |
| DilithiumAcceptance.VerifiesIff | QSMP/QSC/dilithiumbase.c:1606-1674 | a signature that unpacks is accepted if and only if every coefficient of z is less than gamma1 - beta from 0 and its first part is the hash of the bound message and the hinted high parts of the only v in [0, Q) congruent to A z - 2^13 c t1 |
| DilithiumAcceptance.Malformed | QSMP/QSC/dilithiumbase.c:1617-1630 | what is too short or does not unpack is refused |
| DilithiumAcceptance.TwoMessages | QSMP/QSC/dilithiumbase.c:1640-1668 | a signature accepted for two messages makes their two challenge hashes equal |
| DilithiumAcceptance.RoundKeepsHighBits | QSMP/QSC/dilithiumbase.c:1555-1567 | whenever a round of signing succeeds, the high bits of w - c s2 are those of w, and its low bits are less than gamma2 - beta from 0 |
| DilithiumAcceptance.SecretDraws | QSMP/QSC/dilithiumbase.c:1436-1446 | the secrets of a key are one run of draws, numbered without repetition |
| DilithiumAcceptance.MaskDraws | QSMP/QSC/dilithiumbase.c:1518-1524 | the masks of round n are the draws from L n on |
| DilithiumWidths.SigningStaysInside | QSMP/QSC/dilithiumbase.c:1490-1590 | in a round of signing no transform, product, sum on the way of the accumulation or difference leaves int32, for every key, mask and challenge |
| DilithiumWidths.KeyGenerationStaysInside | QSMP/QSC/dilithiumbase.c:1420-1466 | the same for the public vector of key generation, for every mode and seed |
| DilithiumWidths.NextSum | QSMP/QSC/dilithiumbase.c:1490-1590 | the sums on the way are those of the loop: each is the one before and one more product |
| DilithiumWidths.VerificationStaysInside | QSMP/QSC/dilithiumbase.c:1640-1655 | the same for the verifier's sums |
| KyberReduce.MontgomeryCong | QSMP/QSC/kyberbase.c:33-44 | the reduced value times 2^16 is congruent to the input modulo 3329, wrap-around included |
| KyberReduce.BarrettCentred | QSMP/QSC/kyberbase.c:46-55 | for every int16, in 16-bit words, the result is the representative closest to zero |
| KyberReduce.BarrettCanonical | QSMP/QSC/kyberbase.c:46-55 | equal residues reduce to the same value |
| KyberReduce.BarrettFitsIff | QSMP/QSC/kyberbase.c:46-55 | for int16 inputs the quotient times q fits int16 if and only if the input is between -31625 and 31625 |
| KyberReduce.BarrettOverflows | QSMP/QSC/kyberbase.c:46-55 | at 32767 it does not fit, and the wrapped difference is right |
| KyberNttLoops.PolyNttInPlace | QSMP/QSC/kyberbase.c:154-178 | the loops and the closing reduction leave the transform in the array; within 9464 of zero nothing leaves int16 |
| KyberNttLoops.InvNttInPlace | QSMP/QSC/kyberbase.c:180-211 | the same for the inverse transform |
| KyberNtt.NttMultiplies | QSMP/QSC/kyberbase.c:154-220 | transform, base multiplication, inverse transform: the product modulo X^256 + 1 and 3329, for all polynomials |
| KyberNtt.RefNttInjective | QSMP/QSC/kyberbase.c:154-178 | polynomials with congruent transforms are congruent |
| KyberNoise.PairCoefficient | QSMP/QSC/kyberbase.c:87-106 | with two bits, coefficient 8 i + j of the noise is the difference of two base-4 digits of the sum of a 32-bit word and its shift, both masked with 0x55555555 |
| KyberNoise.TripleCoefficient | QSMP/QSC/kyberbase.c:121-145 | with three bits, coefficient 4 i + j is the difference of two base-8 digits of three shifts masked with 0x249249 |
| KyberNoise.AndBit | QSMP/QSC/kyberbase.c:87-145 | the mask of the model is the conjunction bit by bit |
| KyberNoise.Cbd2 | QSMP/QSC/kyberbase.c:87-106 | the loops over words and digits compute the counts of bits |
| KyberNoise.Cbd3 | QSMP/QSC/kyberbase.c:121-145 | the same for three bits |
| KyberNoise.KeyDraws | QSMP/QSC/kyberbase.c:740-784 | secret and error of a key are one run of draws, numbered without repetition |
| KyberNoise.CipherDraws | QSMP/QSC/kyberbase.c:786-838 | so are the three parts of an encryption |
| KyberCompress.CompressError | QSMP/QSC/kyberbase.c:238-311 | decompressing a compressed coefficient changes it by at most the rounding error of the width, modulo q, for negative representatives, too |
| KyberCompress.CompressDecompress | QSMP/QSC/kyberbase.c:238-311 | compressing a decompressed value gives it back, for every width |
| KyberCompress.BitSurvives | QSMP/QSC/kyberbase.c:340-370 | a message bit is read back exactly when the noise on its coefficient lies between -832 and 832 less the bit |
| KyberAlgebra.OnlyNoiseRemains | QSMP/QSC/kyberbase.c:740-857 | whenever key and ciphertext satisfy their defining equations modulo q, decryption leaves the message and e r - s f + g |
| KyberCorrectness.RunLeavesNoise | QSMP/QSC/kyberbase.c:740-857 | the polynomial that decryption decodes is the message plus the run's noise, modulo q |
| KyberCorrectness.DecryptsIffTolerable | QSMP/QSC/kyberbase.c:740-857 | on bytes, for every level, key seed, message and coins, decryption returns the message if and only if every centred noise coefficient lies between -832 and 832 less the message bit |
| KyberBytes.WriteCipher | QSMP/QSC/kyberbase.c:238-505 | writing a ciphertext with the unrolled lines gives the packed ciphertext |
| KyberBytes.ReadCipher | QSMP/QSC/kyberbase.c:281-556 | the same for reading it |
| KyberBytes.WriteWhole | QSMP/QSC/kyberbase.c:313-329 | the same for vectors of whole coefficients |
| KyberBytes.ReadWhole | QSMP/QSC/kyberbase.c:331-338 | the same for reading them |
| KyberWidths.EncryptionStaysInside | QSMP/QSC/kyberbase.c:786-838 | no sum on the way of an accumulation, transform or sum of an encryption leaves int16, for every level, key, message and coins |
| KyberWidths.KeyGenerationStaysInside | QSMP/QSC/kyberbase.c:740-784 | the same for the public key, for every level and seed |
| KyberWidths.NextSum | QSMP/QSC/kyberbase.c:740-857 | the sums on the way are those of the loop: each is the one before and one more product |
| KyberWidths.DecryptionStaysInside | QSMP/QSC/kyberbase.c:840-857 | the same for decryption |
| KyberKem.DecapsulateAgrees | QSMP/QSC/kyberbase.c:859-920 | with tolerable noise, decapsulation returns true and the secret that encapsulation derived |
| KyberKem.AcceptedIsReencryption | QSMP/QSC/kyberbase.c:891-920 | any ciphertext is accepted exactly when it is the encryption of what it decrypts to, with the derived coins |
| KyberKem.SecretBinds | QSMP/QSC/kyberbase.c:885-888 | equal secrets come from equal pre-keys and ciphertexts, or one of the two hashes has a collision |
| KyberKem.RefusedMixesPrekey | QSMP/QSC/kyberbase.c:900-920 | on refusal the result is false and the secret is made from the pre-key with only the lowest bit of each byte taken from z; it is made from z exactly when the two agree in all other bits |
| KyberKem.PrekeyStays | QSMP/QSC/kyberbase.c:891-920 | with a hash that gives zeros, every receiver whose z is all twos refuses some ciphertext and derives the secret from the pre-key of zeros instead of z |
| ByteTools.VerifyCompares | QSMP/QSC/intutils.c:371-383 | 0 for equal strings, -1 for different ones |
| ByteTools.MoveOne | QSMP/QSC/intutils.c:143-151 | with condition 1 the source replaces the destination |
| ByteTools.MoveAllOnes | QSMP/QSC/intutils.c:143-151 | with condition 255 only the lowest bit of every byte moves |
| Groups.MultipleAdd | QSMP/QSC/ec25519.c:2791-2844 | in any abelian group, m p + n p = (m + n) p for all integers |
| ScalarDigits.Slide | QSMP/QSC/ec25519.c:56-113 | the sliding-window recoding in place keeps the value of every scalar below 2^255, leaves only zero or odd digits within 15, and its carry never runs off the end |
| ScalarDigits.Radix16 | QSMP/QSC/ec25519.c:2791-2822 | the signed recoding keeps the value, with digits between -8 and 8 |
| Ed25519Mult.DoubleScalarMult | QSMP/QSC/ec25519.c:3068-3196 | the two-scalar multiplication computes a A + b B in any abelian group, for all scalars below 2^255 |
| Ed25519Mult.ScalarMultBase | QSMP/QSC/ec25519.c:2791-2844 | odd digits, four doublings and even digits, through the table, compute a B |
| Ed25519.IsCanonical | QSMP/QSC/ec25519.c:3317-3343 | the branch-free comparison is true exactly for numbers below the order |
| Ed25519.ClampValue | QSMP/QSC/ec25519.c:3230-3235 | the clamped scalar is 2^254 plus the 254 low bits of the bytes without the three lowest |
| Ed25519.ClampRange | QSMP/QSC/ec25519.c:3230-3235 | it is a multiple of 8 in [2^254, 2^255) |
| Ed25519Signing.SignDetached | QSMP/QSC/ecdsabase.c:8-60 | signing, with the byte routines for reduction, multiplication and addition of scalars and the table multiplication, returns the signature that is specified over the group |
| Ed25519Signing.VerifyDetached | QSMP/QSC/ecdsabase.c:62-113 | verification, with the byte routine for the reduction and the window multiplication, decides the equation that is specified over the group, all pre-checks included |
| Ed25519.VerifiesIffPreChecks | QSMP/QSC/ecdsabase.c:8-127 | over every abelian group with a base point of the given order, a signature is accepted under its own key if and only if none of the point checks fires; its scalar half always passes |
| Ed25519Acceptance.AcceptedIff | QSMP/QSC/ecdsabase.c:62-113 | for the R with s B = R + h A, h being the reduced hash of first half, key and message, a signature is accepted if and only if the checks pass and its first half encodes R |
| Ed25519Acceptance.TwoMessages | QSMP/QSC/ecdsabase.c:92-107 | with an injective encoding, a signature accepted for two messages makes the difference of the two hashes annihilate A |
| Ed25519Acceptance.OneSecondHalf | QSMP/QSC/ecdsabase.c:62-113 | with a base point of exactly the given order, at most one second half below the order is accepted |
| Ed25519Acceptance.ScalarCheck | QSMP/QSC/ecdsabase.c:70-76 | for an order whose top byte is 16, the check on the second half passes exactly below the order |
| ScalarReduce.FoldKeeps | QSMP/QSC/ec25519.c:3875-3950 | a fold takes away a multiple of the order, and the top limb with it |
| ScalarReduce.ReduceExact | QSMP/QSC/ec25519.c:3822-4118 | 24 small limbs end as twelve limbs holding the unique representative in [0, L) |
| ScalarReduce.LastFold | QSMP/QSC/ec25519.c:4020-4060 | the last carry out of limb 11 is -1 or 0 |
| ScalarMulAdd.ReduceBytesExact | QSMP/QSC/ec25519.c:3822-4152 | from 64 bytes to 32 bytes, masks, shifts and ors included, the result is the little-endian representative modulo L |
| ScalarMulAdd.MulAddBytesExact | QSMP/QSC/ec25519.c:3345-3820 | from three times 32 bytes, the result is the little-endian representative of a b + c modulo L |
| ScalarMulAdd.SourceOrderValue | QSMP/QSC/ec25519.c:3317-3331 | the order that the source compares with byte by byte is the L that its reduction has built in |
| ScalarWidths.ReduceStaysInside | QSMP/QSC/ec25519.c:3822-4118 | every product, sum, rounding and carry of the reduction fits int64 |
| ScalarWidths.MulAddStaysInside | QSMP/QSC/ec25519.c:3345-3780 | the same for all products and partial sums of the multiplication |
| ScalarWidths.BytesStayInside | QSMP/QSC/ec25519.c:3345-4118 | both, for all input bytes |
| FieldLimbs.MulExact | QSMP/QSC/ec25519.c:382-554 | for limbs within 1.65 2^26 and 1.65 2^25 the limbs of the result are within 1.01 2^25 and 1.01 2^24, and it stands for f g modulo 2^255 - 19 |
| FieldLimbs.SquareExact | QSMP/QSC/ec25519.c:627-797 | the same for f f, whose equal products are taken together |
| FieldLimbs.Square2Exact | QSMP/QSC/ec25519.c:799-949 | the same for 2 f f, doubled before the carries |
| FieldLimbs.Mul32Exact | QSMP/QSC/ec25519.c:556-625 | for such limbs and a factor up to 121666 the limbs come down to 1.1 2^25 and 1.1 2^24 and stand for f n |
| FieldLimbs.FactorsFit | QSMP/QSC/ec25519.c:382-470 | the factors multiplied by 19 and 38 beforehand fit int32 |
| FieldWidths.MulStaysInside | QSMP/QSC/ec25519.c:382-554 | every product, every sum from the left, every rounding, carry and shift back of a multiplication fits int64, and the result int32, for limbs within 1.65 2^26 and 1.65 2^25 |
| FieldWidths.SquareStaysInside | QSMP/QSC/ec25519.c:627-797 | the same for a square |
| FieldWidths.Square2StaysInside | QSMP/QSC/ec25519.c:799-949 | the same for twice a square, the doubled sums included |
| FieldWidths.Mul32StaysInside | QSMP/QSC/ec25519.c:556-625 | the same for a factor up to 121666 |
| FieldWidths.FromBytesStaysInside | QSMP/QSC/ec25519.c:951-1018 | the same for loading 32 bytes |
| FieldWidths.CanonicalStaysInside | QSMP/QSC/ec25519.c:1020-1119 | every shift step of the quotient, its multiple, and every carry of the final reduction fits int32, for limbs within 1.65 2^26 and 1.65 2^25 |
| FieldWidths.FirstTermOf64 | QSMP/QSC/ec25519.c:1064 | the first term, an unsigned shift stored in 32 bits, is the signed quotient where unsigned long has 64 bits |
| FieldWidths.ShortLongExactly | QSMP/QSC/ec25519.c:1064-1119 | where it has 32 bits, the reduced limbs are right if and only if the first term is not negative or the value and the first term leave a remainder below 2^255 - 128 |
| FieldWidths.ShortLongFirm | QSMP/QSC/ec25519.c:1064-1119 | they are for limbs within 1.1 2^25 and 1.1 2^24 |
| FieldWidths.ShortLongMissed | QSMP/QSC/ec25519.c:1020-1075 | they are not for limbs that the stated bounds admit |
| FieldWidths.MissedLimbs | QSMP/QSC/ec25519.c:1020-1024 | limbs within the stated bounds that have the value in question |
| FieldLimbs.FromBytesExact | QSMP/QSC/ec25519.c:951-1018 | loading gives firm limbs that stand for the low 255 bits |
| FieldLimbs.QuotientExact | QSMP/QSC/ec25519.c:1020-1075 | the quotient computed with shifts only is exact, 0 <= h - q p < p, for all limbs within 1.65 2^26 and 1.65 2^25; the source asks for 1.1 2^26 and 1.1 2^25 |
| FieldLimbs.EncodeExact | QSMP/QSC/ec25519.c:1020-1159 | for all such limbs the stored bytes are the little-endian representative in [0, 2^255 - 19) |
| FieldLimbs.EncodeDecoded | QSMP/QSC/ec25519.c:951-1159 | encoding what was loaded reduces the low 255 bits |
| FieldLimbs.EncodeCanonical | QSMP/QSC/ec25519.c:1020-1159 | any two such elements of the same residue have the same bytes |
| X25519.SameConstant | QSMP/QSC/ecdhbase.c:78-103 | 121666 with BB gives the coordinate that 121665 with AA gives |
| MontgomeryCurve.DoubleIs | QSMP/QSC/ecdhbase.c:86-103 | doubling X : Z is (X^2 - Z^2)^2 : 4 X Z (X^2 + 486662 X Z + Z^2), modulo p |
| MontgomeryCurve.AddLineIs | QSMP/QSC/ecdhbase.c:94-102 | adding X : Z and X' : Z' is 4 (X X' - Z Z')^2 : 4 x1 (X Z' - X' Z)^2, modulo p |
| MontgomeryCurve.ChordLaw | QSMP/QSC/ecdhbase.c:94-102 | on b y^2 = x^3 + A x^2 + x, the coordinates u of the sum and v of the difference of two points satisfy u v (x' - x)^2 = (x x' - 1)^2 |
| MontgomeryCurve.TangentLaw | QSMP/QSC/ecdhbase.c:86-103 | the coordinate u of the doubled point satisfies 4 u (x^3 + A x^2 + x) = (x^2 - 1)^2 |
| CurveLadder.DoubleRepresents | QSMP/QSC/ecdhbase.c:86-103 | line doubling follows the tangent, infinity and the points of order two included |
| CurveLadder.AddRepresents | QSMP/QSC/ecdhbase.c:94-102 | differential addition follows the chord, infinity and opposite points included, in both orders |
| CurveLadder.CurveArithmetic | QSMP/QSC/ecdhbase.c:73-105 | for every prime p that does not divide 486662^2 - 4 and every function on the integers that adds points of such a curve as integers add, the line formulas double and add as the ladder needs |
| X25519.LadderMultiples | QSMP/QSC/ecdhbase.c:73-105 | if the line formulas double and add, the ladder keeps two neighbouring multiples; CurveLadder.CurveArithmetic shows that they do |
| LadderLimbs.LadderLoop | QSMP/QSC/ecdhbase.c:70-108 | the loop with its deferred swap, on limbs: every multiplication's operands are in range, and the points stand for the ladder of section 5 of RFC 7748 at every bit |
| LadderLimbs.Invert | QSMP/QSC/ec25519.c:1234-1310 | the addition chain on limbs within 1.65 2^26 and 1.65 2^25 stands for z to the power whose binary form is 250 ones and 01011 |
| FieldElements.ChainExponent | QSMP/QSC/ec25519.c:1234-1310 | that exponent is 2^255 - 21 |
| FieldElements.InvertIsInverse | QSMP/QSC/ec25519.c:1234-1310 | given Fermat's theorem for z, that power is the inverse |
| PrimeFields.Fermat | QSMP/QSC/ec25519.c:1234-1310 | Fermat's theorem, by the binomial theorem, for every p in which a product vanishes only with a factor |
| CurveLadder.QuotientIs | QSMP/QSC/ecdhbase.c:106-108 | X / Z by the inversion chain is the coordinate of the point, and 0 at infinity |
| LadderLimbs.ScalarMult | QSMP/QSC/ecdhbase.c:39-120 | from bytes to bytes: the result encodes X / Z of a pair that represents the clamped scalar times the point, or -1 is returned for a point of small order |
| X25519Curve.MultiplyPoint | QSMP/QSC/ecdhbase.c:39-120 | from bytes to bytes on the curve or its twist: the result encodes the coordinate of the clamped multiple of the point |
| X25519Curve.Agreement | QSMP/QSC/ecdhbase.c:39-120 | each side's multiple of what the other side sent has the coordinate of the multiple by the product |
| BitXor.XorBit | QSMP/QSC/aes.c:786-799 | the exclusive or of the model, on numbers, is the sum of the bits modulo 2 |
| AesTables.InverseTables | QSMP/QSC/aes.c:738-776 | the second table undoes the first, for all 256 bytes |
| AesField.FieldTimesIs | QSMP/QSC/aes.c:801-808 | the product of two bytes in the field is the remainder of the carryless product by X^8 + X^4 + X^3 + X + 1 |
| AesEntries.SBoxIsAffine | QSMP/QSC/aes.c:738-756 | every entry of the table is the affine image (section 5.1.1 of FIPS 197) of the inverse of its index in that field, 0 going to the image of 0 |
| AesField.MixIsProduct | QSMP/QSC/aes.c:879-907 | mixing multiplies a column by 3 X^3 + X^2 + X + 2 modulo X^4 + 1 over that field |
| AesField.InvMixIsProduct | QSMP/QSC/aes.c:810-846 | unmixing multiplies it by 11 X^3 + 13 X^2 + 9 X + 14 |
| AesColumns.UnmixMix | QSMP/QSC/aes.c:801-907 | unmixing undoes mixing for all 2^32 columns, both reductions as written |
| RoundCiphers.DecryptedEncrypted | QSMP/QSC/aes.c:957-999 | for any rounds made of undoable steps, running the inverse steps backwards undoes encryption |
| RoundCiphers.EncryptedOnward | QSMP/QSC/aes.c:980-999 | read from the front: a key, rounds that scramble, mix and take the next key, and a last one that does not mix |
| AesBlock.ShiftedRowsAt | QSMP/QSC/aes.c:848-931 | byte r + 4 c comes from byte r + 4 (c + r), columns counted modulo 4, and goes back there |
| AesBlock.RoundKeyWord | QSMP/QSC/aes.c:786-799 | the four bytes added to a column make up the key word, most significant first |
| AesBlock.EncryptBlock | QSMP/QSC/aes.c:980-999 | the in-place rounds compute the encryption function |
| AesBlock.DecryptBlock | QSMP/QSC/aes.c:957-978 | the in-place inverse rounds compute the decryption function |
| AesBlock.DecryptEncrypt | QSMP/QSC/aes.c:786-999 | decryption undoes encryption for every block, all round keys and every number of rounds |
| AesModes.Modes.CbcEncrypt | QSMP/QSC/aes.c:1178-1207 | the loop and the padded last block put out the chained blocks and leave the chaining value in the nonce |
| AesModes.Modes.CbcDecrypt | QSMP/QSC/aes.c:1153-1176 | the loop puts out the unchained blocks less what parses as padding, and says how many bytes |
| AesModes.CbcBlock | QSMP/QSC/aes.c:1178-1207 | every whole block is added to the block put out before it, the first one to the nonce, and encrypted |
| AesModes.DecryptedEncrypted | QSMP/QSC/aes.c:1153-1207 | decrypting a non-empty message's encryption gives the message without what its aligned last block seems to pad |
| AesModes.RoundTripIff | QSMP/QSC/aes.c:1153-1207 | the message comes back if and only if it is not aligned or its last block does not parse as padding |
| AesModes.LostByte | QSMP/QSC/aes.c:1380-1402 | sixteen ones come back as fifteen |
| AesModes.ChainsAgree | QSMP/QSC/aes.c:1209-1243 | both sides are left with the same chaining value, so the next message can follow |
| AesModes.Modes.CtrLittle | QSMP/QSC/aes.c:1286-1325 | the loop and the cut last block put out the input with the key stream added, and leave the counter after them in the nonce |
| AesModes.LittleByte | QSMP/QSC/aes.c:1286-1325 | byte r of block k is added to byte r of the encryption of nonce + k, as numbers of 16 bytes modulo 2^128 |
| AesModes.LittleAfterValue | QSMP/QSC/aes.c:1286-1325 | after a text the counter has moved on by the blocks that cover it, modulo 2^128, so no block is left over or used again |
| AesModes.AesInverse | QSMP/QSC/aes.c:957-999 | AES under any round keys is such a pair of block functions |
| CounterStreams.CryptTwice | QSMP/QSC/aes.c:1286-1325 | adding the key stream twice gives the text back, for every stream |
| AeadRuns.Lockstep | QSMP/QSC/aes.c:1568-1628 | for any sequence of associated data and texts, the receiver recovers every text and the two states stay equal but for the mode flag |
| AeadRuns.AcceptedIsSent | QSMP/QSC/aes.c:1586-1628 | a text is accepted exactly when it is what the sender would have sent for what it decrypts to |
| AeadRuns.AfterRefusal | QSMP/QSC/aes.c:1586-1628 | after a refusal the next text of the sender is accepted exactly when its code comes out the same from the moved MAC state as from the sender's, and refused exactly when it does not |
| Hba256.PairedAfterRefusalIff | QSMP/QSC/aes.c:1586-1628 | two HBA-256 states in step are in step after a refused text if and only if its length is a multiple of 2^64 and the MAC's state and key came back |
| Hba256.GenuineTextRefused | QSMP/QSC/aes.c:1586-1628 | with a MAC that counts its calls, one refused empty text makes the receiver refuse the sender's next genuine one |
| Hba256.CodeBinds | QSMP/QSC/aes.c:1586-1628 | with a MAC that lists what it absorbs, a text accepted under the code of another one is that other one, with the same nonce and history |
| Hba256.AssociatedIs | QSMP/QSC/aes.c:1568-1584 | associated data enters the list with its 32-bit length |
| Hba256.KeyMoves | QSMP/QSC/aes.c:1432-1470 | a text adds its length to the count, and the next key is made from the last one, the count and the name |
| Csx.PairedAfterRefusalIff | QSMP/QSC/csx.c:813-951 | the same condition for two CSX states, where the MAC keeps no key beside its state |
| Csx.GenuineTextRefused | QSMP/QSC/csx.c:813-951 | and the same refusal of a genuine text |
| Csx.CodeBinds | QSMP/QSC/csx.c:813-951 | the same for CSX |
| Csx.AssociatedIs | QSMP/QSC/csx.c:795-811 | the same for CSX |
| Hba256.Hba.Transform | QSMP/QSC/aes.c:1586-1628 | the call computes the sender's or the receiver's step on the whole state; a refused call leaves the output untouched |
| Hba256.Hba.SetAssociated | QSMP/QSC/aes.c:1568-1584 | associated data moves the MAC only, no data nothing |
| Hba256.HbaLockstep | QSMP/QSC/aes.c:1423-1628 | the lockstep of two HBA-256 states over any run of calls |
| Csx.IncrementCounts | QSMP/QSC/csx.c:47-55 | the two counter words count as one number modulo 2^128 |
| Csx.CsxByte | QSMP/QSC/csx.c:635-655 | byte r of block k is added to byte r of the block of the counter that is k higher |
| Csx.CsxAfterNumber | QSMP/QSC/csx.c:635-655 | after a text the counter has moved on by the blocks that cover it |
| Csx.NonceBytesAre | QSMP/QSC/csx.c:813-951 | the MAC is given the counter in sixteen bytes, least significant first |
| Csx.State.Stream | QSMP/QSC/csx.c:635-655 | the loops put out the input with the key stream added and move the counter on |
| Csx.State.Transform | QSMP/QSC/csx.c:813-951 | the plain and the extended call compute the sender's or the receiver's step on the whole state |
| Csx.CsxLockstep | QSMP/QSC/csx.c:686-951 | the lockstep of two CSX states over any run of calls, messages of several texts included |
| ByteCounters.BeIncrement | QSMP/QSC/intutils.c:22-35 | the loop leaves the next number in the array, most significant byte first |
| ByteCounters.LeIncrement | QSMP/QSC/intutils.c:226-243 | the loop leaves the next number in the array, least significant byte first |
| ByteCounters.NextBigValue | QSMP/QSC/intutils.c:22-35 | the next number is one more, modulo the range |
| ByteCounters.NextLittleValue | QSMP/QSC/intutils.c:226-243 | the next number is one more, modulo the range |
| BlockStreams.OutputsJoined | QSMP/QSC/csg.c:120-175 | however requests are cut, their outputs joined up are one run of the plain block stream |
| BlockStreams.TakeBlocks | QSMP/QSC/csg.c:6-21 | a run of whole blocks is the blocks one after the other |
| Generators.Csg.Generate | QSMP/QSC/csg.c:120-175 | a request returns the next piece of the block stream and leaves the position behind it; with predictive resistance a reseeding may follow |
| Generators.Csg.Update | QSMP/QSC/csg.c:177-195 | a new seed drops what was left of the block |
| Generators.Hcg.FillBuffer | QSMP/QSC/hcg.c:9-32 | a block is the code over the block before, the next counter and the info string |
| Generators.BlockOfMessage | QSMP/QSC/hcg.c:9-32 | with a hash that lists what it absorbs, a block is the code over one message: the block before, the number one higher in eight bytes, most significant first, and the info string |
| Generators.Hcg.Generate | QSMP/QSC/hcg.c:105-154 | a request returns the next piece of the chained stream: handing bytes out does not disturb the chain |
| FalconModular.NegInverseExact | QSMP/QSC/falconbase_avx2.h:677-691 | for every odd p, four Newton steps in 32-bit words end with -1/p modulo 2^31 |
| FalconModular.MontyMulExact | QSMP/QSC/falconbase_avx2.h:730-747 | for every odd p below 2^31 the product lies in [0, p) and is a b / 2^31 modulo p |
| FalconModular.MqMontyMulExact | QSMP/QSC/falconbase_avx2.h:823-860 | the same for 12289 and 2^16 |
| FalconModular.SumsExact | QSMP/QSC/falconbase_avx2.h:702-728 | sums and differences come out as residues in [0, p) |
| FalconModular.NormOfSet | QSMP/QSC/falconbase_avx2.h:654-675 | the signed representative undoes the setting of a value |
| FalconModular.HalfExact | QSMP/QSC/falconbase_avx2.h:813-821 | halving is division by 2 modulo 12289 |

## Left out

- The permutations and compression functions behind SHAKE, cSHAKE, KMAC, SHA-2 and HMAC, the CSX permutation
  and the system's random source: they are function parameters, and each result holds for all of them.
- DilithiumSign.Sign: takes a number of rounds after which the model gives up; the source's loop does not end
  before a round succeeds. What it returns is proved for every number of rounds.
- DilithiumSampling.UniformPoly: stops at a limit of blocks, and Challenge at the end of the given bytes; that
  enough accepted samples arrive is a matter of probability. The scheme itself draws its samples from
  parameters brought into range, not through these loops. Sampling of eta and the sampler of Kyber are left
  out as similar.
- KyberPke.UniformPoly: the matrix sampler is a parameter, brought into range.
- SIMD code (AVX, AVX2, AVX-512, AES-NI), Falcon's floating point and sampling, and McEliece.
- The Edwards formulas as a group law, point decoding and the square root behind it: the group of Ed25519 is any
  abelian group, and decoding is a parameter. The constant tables of points are assumed to hold the multiples they
  are meant to hold.
- X25519Curve.MultiplyPoint: takes the multiples of the point as a function that adds by chords and tangents as the
  integers add; that the curve is a group, so that there is one, and that 2^255 - 19 is prime are not proved.
- The small-order and canonical-point checks of Ed25519 and X25519 are parameters.
- AES key expansion: DecryptEncrypt holds for all round keys, so the schedule does not matter to it.
- Big-endian counter mode of AES: it differs from the little-endian one in the increment only, which is
  modelled.
- Aliased buffers: inputs are values, so calls with input and output in the same buffer are not captured.
- The AES state refers to a nonce that its caller owns; the model's state owns its nonce.
- Initialization of HBA-256 and CSX from keys, and HCG's update: one or two calls of the parameters above.
- Csx.State.Transform: the scalar path only; a refused text that does not end the message cannot occur, since
  no code is compared then.
- Counters of processed bytes are taken modulo 2^64 as in the source; the generators' byte counters are
  unbounded, and reseeding is modelled with the random bytes as a parameter.
- Constant time and the clearing of buffers.
