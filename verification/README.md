# Toy S-DES cipher, text codec and key search

A Dafny model of the computational half of `te2.py`. That file holds a small
S-DES-style block cipher, a wrapper that encrypts text one character per block,
and an exhaustive search over all 1024 keys. The model has eight modules:

- `Bits`: the list helpers `permute`, `left_shift` and `xor`, plus the
  MSB-first binary encoding used by `format(i, '010b')`, `f'{v:08b}'` and
  `int(s, 2)`.
- `Tables`: the constant tables P10, P8, IP, IP_inv, EP and P4, and the two
  S-boxes.
- `KeySchedule`: `key_expansion`, which makes two 8-bit subkeys from a 10-bit key.
- `Round`: the round function `f`.
- `Cipher`: `encrypt` and `decrypt`.
- `TextCodec`: `char_to_bits`, `bits_to_char`, `string_to_bits`,
  `bits_to_string`, `encrypt_string` and `decrypt_string`.
- `KeySearch`: `generate_all_keys`, `try_key` and `brute_force`.

- `KnownAnswer`: one concrete encryption worked through every stage: key
  1010000010 and plaintext 10111101 give ciphertext 00111101.

A bit is an `int` restricted to 0 and 1, and a bit vector is a `seq` of bits.
Where the original would raise `IndexError`, the model has a precondition:

- a key needs at least 10 bits;
- a block needs at least 8 bits;
- a half needs at least 4 bits;
- a subkey needs at least 8 bits.

Longer inputs are accepted, as in the original. The tables only index the
prefix, and `zip` stops at the shorter list. `left_shift` follows Python's
slice clamping, and `xor` follows `zip` truncation.

The cipher is modelled as written, which is not textbook S-DES:

- The second round applies `f` to `L1`, and `L1` is `R0`, so both rounds use
  the same right half.
- The output is `IP_inv(R2 + L1)`.

Encryption is therefore `IP_inv((L0 xor f(R0, k1) xor f(R0, k2)) + R0)`. Two
consequences are proved:

- Decryption, which only swaps the subkeys, is the same function as encryption.
- The right half of the IP-permuted block never changes. So a
  plaintext/ciphertext pair whose IP right halves differ has no key at all.

The search loops over the candidates in ascending order. `SearchKeys` is the
loop, and `Matching` is its reference filter.

## Model

| member | source | states |
|---|---|---|
| Bits.Permute | te2.py:39-40 | the output has one entry per table entry, and entry i is input bit table[i] (1-based); any table whose entries lie within the input length is accepted |
| Bits.PermuteCompose | te2.py:39-40 | permuting by one table and then another equals one permutation by the composed table |
| Bits.LeftShift | te2.py:43-44 | the length is kept; for a shift n up to the length, entry i is input entry i + n, wrapping around; a shift at least the length returns the list unchanged (slice clamping) |
| Bits.LeftShiftAdd | te2.py:43-44 | rotating by n and then by m equals rotating by n + m, while n + m fits in the length |
| Bits.Xor | te2.py:47-48 | the length is that of the shorter input; an entry is 1 exactly when the two inputs differ there |
| Bits.XorCancel | te2.py:47-48 | xor with the same equal-length vector twice returns the original |
| Bits.XorSwapMasks | te2.py:47-48 | two xor masks can be applied in either order |
| Bits.ToNat | te2.py:153 | the MSB-first value of n bits is below 2^n |
| Bits.FromNat | te2.py:16 | the width-digit binary form of n has exactly width bits and reads back as n |
| Bits.FromNatToNat | te2.py:16 | encoding a vector's own value at its own width gives the vector back |
| Bits.ToNatInjective | te2.py:16 | two vectors of the same width with the same value are equal |
| Tables.TablesInRange | te2.py:5-13 | each table's entries are valid indices into the input it is applied to (P10 and P8 to 10 bits, IP and IP_inv to 8, EP and P4 to 4), and both S-boxes are 4x4 with entries in 0..3 |
| Tables.TablesArePermutations | te2.py:5-10 | P10, IP, IP_inv and P4 use every index of their input exactly once |
| Tables.ComposedInitialPermutations | te2.py:7-8 | composing IP and IP_inv in either order gives the identity table |
| Tables.InitialPermutationInverse | te2.py:7-8 | IP_inv undoes IP, and IP undoes IP_inv, on every 8-entry block |
| KeySchedule.Halves | te2.py:53-55 | the P10-permuted key splits into two 5-bit halves that together are the whole permuted key |
| KeySchedule.KeyExpansion | te2.py:51-67 | any key of at least 10 bits yields two subkeys of exactly 8 bits |
| KeySchedule.SecondSubkeyRotatesByThree | te2.py:58-65 | K2 is P8 of the P10 halves, each rotated by 3 in total |
| KeySchedule.RotateHalvesIsPermute | te2.py:58-64 | rotating both 5-bit halves by n is one fixed permutation of the 10 bits |
| KeySchedule.SelectionTables | te2.py:5-6 | P10, the rotation by 1 (or by 3) and P8 compose to the key-bit selections [1,7,9,4,8,3,10,6] and [8,3,6,5,10,2,9,1] |
| KeySchedule.RotatedSubkeySelects | te2.py:53-65 | spreading, rotating the halves and compressing together select key bits by the composed table |
| KeySchedule.SubkeysSelectKeyBits | te2.py:51-67 | K1 is key bits 1,7,9,4,8,3,10,6 and K2 is key bits 8,3,6,5,10,2,9,1, for every key |
| Round.SBoxLookup | te2.py:82-88 | row (bits 0 and 3) and column (bits 1 and 2) index inside the box, and the looked-up value is in 0..3 |
| Round.TwoBits | te2.py:91 | an S-box output below 4 becomes exactly two bits, MSB first, reading back as the same value |
| Round.Mix | te2.py:72-75 | the EP-expanded half xored with the subkey is exactly 8 bits |
| Round.Substitute | te2.py:78-91 | the two S-box outputs form exactly 4 bits before P4 |
| Round.F | te2.py:70-94 | f maps a half of at least 4 bits and a subkey of at least 8 bits to exactly 4 bits |
| Round.FOutputBits | te2.py:70-94 | for every half and subkey, S-box input bit i is 1 exactly when half bit EP[i] differs from subkey bit i, and f outputs the low bit of the first S-box value, the low and high bits of the second, then the high bit of the first |
| Round.FReadsPrefixes | te2.py:70-94 | f depends only on the first 4 half bits and the first 8 subkey bits |
| Round.MixReadsPrefixes | te2.py:72-75 | the S-box input depends only on the first 4 half bits and the first 8 subkey bits |
| Cipher.Rounds | te2.py:103-115 | the two rounds return 8 bits whose right half is R0 unchanged |
| Cipher.Feistel | te2.py:101-118 | the network returns 8 bits, and after IP its right half equals that of the input after IP |
| Cipher.Encrypt | te2.py:97-120 | encryption returns 8 bits and keeps the right half of the IP-permuted block |
| Cipher.Decrypt | te2.py:122-145 | decryption returns 8 bits and keeps the right half of the IP-permuted block |
| Cipher.RoundsSwappedUndo | te2.py:103-115 | running the rounds again with the subkeys swapped returns the IP-permuted input |
| Cipher.FeistelSwappedUndoes | te2.py:97-145 | running the network again with the subkeys swapped returns the block |
| Cipher.FeistelSubkeyOrderIrrelevant | te2.py:106-113 | the order of the two subkeys does not change the output |
| Cipher.DecryptEncrypt | te2.py:97-145 | decrypting an encrypted 8-bit block with the same key gives it back |
| Cipher.EncryptDecrypt | te2.py:97-145 | encrypting a decrypted 8-bit block with the same key gives it back |
| Cipher.DecryptIsEncrypt | te2.py:97-145 | decryption and encryption agree on every block and key |
| Cipher.EncryptInjective | te2.py:97-120 | under a fixed key, distinct 8-bit blocks encrypt to distinct blocks |
| KnownAnswer.KnownSubkeys | te2.py:51-67 | key 1010000010 gives K1 = 10100100 and K2 = 01000011 |
| KnownAnswer.KnownRound | te2.py:70-94 | f of R0 = 1110 is 0010 under K1 and 0011 under K2 |
| KnownAnswer.KnownRounds | te2.py:103-115 | the rounds on IP block 01111110 give 01101110 |
| KnownAnswer.KnownVector | te2.py:97-120 | key 1010000010 encrypts plaintext 10111101 to 00111101 |
| TextCodec.CharToBits | te2.py:148-149 | a character below 256 becomes exactly 8 bits whose MSB-first value is its code point |
| TextCodec.BitsToChar | te2.py:152-153 | 8 bits become the character whose code point is their value, which is below 256 |
| TextCodec.BitsToCharToBits | te2.py:148-153 | decoding the bits of a one-byte character gives the character back |
| TextCodec.CharToBitsToChar | te2.py:148-153 | encoding the character of an 8-bit block gives the block back |
| TextCodec.StringToBits | te2.py:156-157 | one 8-bit block per character, holding that character's code point |
| TextCodec.BitsToString | te2.py:160-161 | one character per block, whose code point is that block's value |
| TextCodec.BitsToStringStringToBits | te2.py:156-161 | decoding the blocks of a one-byte string gives the string back |
| TextCodec.EncryptString | te2.py:164-167 | the length is kept, the result is one-byte, and character i is the encryption of character i alone |
| TextCodec.DecryptString | te2.py:170-173 | the length is kept, the result is one-byte, and character i is the decryption of character i alone |
| TextCodec.EncryptStringIsPerCharacter | te2.py:164-167 | equal plaintext characters give equal ciphertext characters |
| TextCodec.DecryptStringEncryptString | te2.py:164-173 | decrypting an encrypted one-byte string with the same key gives it back |
| TextCodec.EncryptStringDecryptString | te2.py:164-173 | encrypting a decrypted one-byte string with the same key gives it back |
| KeySearch.GenerateAllKeys | te2.py:15-16 | 1024 keys of 10 bits each; key i is the MSB-first binary form of i |
| KeySearch.AllKeysDistinct | te2.py:15-16 | no key is generated twice |
| KeySearch.EveryKeyGenerated | te2.py:15-16 | every 10-bit key is generated, at the index equal to its value |
| KeySearch.GeneratedKeysAreTheKeySpace | te2.py:15-16 | the generated keys are exactly the 10-bit vectors, each listed once |
| KeySearch.TryKey | te2.py:19-21 | returns the key exactly when the ciphertext decrypts to the plaintext under it, and nothing otherwise |
| KeySearch.NoKeyWhenRightHalvesDiffer | te2.py:19-21 | when the IP right halves of plaintext and ciphertext differ, no key decrypts one to the other |
| KeySearch.MatchingMembers | te2.py:29-34 | a key is kept exactly when it is a candidate that passes the test, and distinct candidates give distinct results |
| KeySearch.SearchKeys | te2.py:29-34 | trying every candidate and keeping those that pass gives exactly the reference filter |
| KeySearch.BruteForce | te2.py:24-36 | the result holds exactly the 10-bit keys under which the ciphertext decrypts to the plaintext, each once, including every key that encrypts the plaintext to the ciphertext |
| KeySearch.BruteForceEmptyWhenRightHalvesDiffer | te2.py:24-36 | a pair whose IP right halves differ yields no keys |

## Left out

- The PyQt5 application class and the `__main__` block (te2.py:175-316) are user interface. Their length and 0/1 checks become the `Bit` type and the length preconditions.
- The thread pool and `as_completed` in `brute_force` (te2.py:29-31) are concurrency. They only decide the order in which found keys are appended, so the model tries keys in ascending order, and the order of the result is not part of any contract.
- The `time.time()` timestamp stored beside each found key (te2.py:34) is wall-clock input. The model returns the keys alone.
- Characters with code point 256 or more: `f'{ord(c):08b}'` then yields more than 8 bits, and the code does no modulo reduction. The text codec therefore requires one-byte characters.
- TextCodec.BitsToChar: requires exactly 8 bits. The original accepts any non-empty list whose value is below 0x110000, but it is only ever given the 8-bit outputs of the cipher.
- Bits.Permute: requires every table entry to lie in 1..length. Python would also accept 0 or negative entries (negative indexing) and raise `IndexError` past the end. No table of the program does either.
- Round.SBoxLookup: `(a << 1) | b` is modelled as `2 * a + b`. The two agree on 0/1 values, which is all the `Bit` type admits.
- Bits.LeftShift: the shift is a `nat`. Python also accepts a negative shift, which rotates right; te2.py:58-64 only ever shift by 1 and 2.
- Bits.Xor: `^` is modelled only on 0/1 values, where it is inequality.
- TryKey and BruteForce compare the decrypted block with the plaintext as sequences, as the original compares lists. A plaintext that is not 8 bits therefore matches no key.
