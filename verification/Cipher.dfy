/** The block cipher (te2.py lines 97-145). It is not textbook S-DES: both
    rounds apply f to the same half R0 (the second round calls f(L1, k2)
    with L1 = R0) and the output is IP^-1(R2 + L1). The ciphertext is
    therefore IP^-1((L0 xor f(R0, k1) xor f(R0, k2)) + R0). Decryption is
    the same network with the subkeys in the opposite order. */
module Cipher {
  import opened Bits
  import opened Tables
  import opened KeySchedule
  import opened Round

  /** The two Feistel rounds on the IP-permuted block, returning R2 + L1
      for the final permutation. The right half passes through unchanged. */
  function Rounds(ip: seq<Bit>, first: seq<Bit>, second: seq<Bit>): (combined: seq<Bit>)
    requires |ip| == 8 && |first| >= 8 && |second| >= 8
    ensures |combined| == 8
    ensures combined[4..] == ip[4..]
  {
    var l0 := ip[..4];
    var r0 := ip[4..];
    var l1 := r0;
    var r1 := Xor(l0, F(r0, first));
    var l2 := r1;
    var r2 := Xor(l2, F(l1, second));
    r2 + l1
  }

  /** The network shared by encrypt and decrypt, with the subkey of the
      first round and of the second. Only the first 8 block bits are read. */
  function Feistel(block: seq<Bit>, first: seq<Bit>, second: seq<Bit>): (out: seq<Bit>)
    requires |block| >= 8 && |first| >= 8 && |second| >= 8
    ensures |out| == 8
    ensures Permute(out, IP)[4..] == Permute(block, IP)[4..]
  {
    TablesInRange();
    var combined := Rounds(Permute(block, IP), first, second);
    InitialPermutationInverse(combined);
    Permute(combined, IPInverse)
  }

  /** Encryption of one 8-bit block under a 10-bit key. Only the first 8
      block bits and 10 key bits are read. */
  function Encrypt(plaintext: seq<Bit>, key: seq<Bit>): (ciphertext: seq<Bit>)
    requires |plaintext| >= 8 && |key| >= 10
    ensures |ciphertext| == 8
    ensures Permute(ciphertext, IP)[4..] == Permute(plaintext, IP)[4..]
  {
    var ks := KeyExpansion(key);
    Feistel(plaintext, ks.k1, ks.k2)
  }

  /** Decryption: the same network with K2 in the first round and K1 in the second. */
  function Decrypt(ciphertext: seq<Bit>, key: seq<Bit>): (plaintext: seq<Bit>)
    requires |ciphertext| >= 8 && |key| >= 10
    ensures |plaintext| == 8
    ensures Permute(plaintext, IP)[4..] == Permute(ciphertext, IP)[4..]
  {
    var ks := KeyExpansion(key);
    Feistel(ciphertext, ks.k2, ks.k1)
  }

  /** The rounds run again with the subkeys swapped give the input back:
      the left half is masked by f(R0, first) and f(R0, second) and then
      unmasked by the same two values. */
  lemma {:induction false} RoundsSwappedUndo(ip: seq<Bit>, first: seq<Bit>, second: seq<Bit>)
    requires |ip| == 8 && |first| >= 8 && |second| >= 8
    ensures Rounds(Rounds(ip, first, second), second, first) == ip
  {
    var l0, r0 := ip[..4], ip[4..];
    var masked := Xor(Xor(l0, F(r0, first)), F(r0, second));
    var combined := Rounds(ip, first, second);
    assert combined == masked + r0;
    assert combined[..4] == masked && combined[4..] == r0;
    XorCancel(Xor(l0, F(r0, first)), F(r0, second));
    XorCancel(l0, F(r0, first));
    assert Rounds(combined, second, first) == l0 + r0;
  }

  /** Running the network again with the subkeys swapped undoes it. */
  lemma {:induction false} FeistelSwappedUndoes(block: seq<Bit>, first: seq<Bit>, second: seq<Bit>)
    requires |block| == 8 && |first| >= 8 && |second| >= 8
    ensures Feistel(Feistel(block, first, second), second, first) == block
  {
    TablesInRange();
    var ip := Permute(block, IP);
    var combined := Rounds(ip, first, second);
    InitialPermutationInverse(combined);
    RoundsSwappedUndo(ip, first, second);
    InitialPermutationInverse(block);
  }

  /** The order of the two subkeys does not matter: both rounds mask the
      same left half with f of the same right half. */
  lemma {:induction false} FeistelSubkeyOrderIrrelevant(block: seq<Bit>, first: seq<Bit>, second: seq<Bit>)
    requires |block| >= 8 && |first| >= 8 && |second| >= 8
    ensures Feistel(block, first, second) == Feistel(block, second, first)
  {
    TablesInRange();
    var ip := Permute(block, IP);
    var l0, r0 := ip[..4], ip[4..];
    XorSwapMasks(l0, F(r0, first), F(r0, second));
    assert Rounds(ip, first, second) == Rounds(ip, second, first);
  }

  /** Decryption inverts encryption on every 8-bit block. */
  lemma DecryptEncrypt(plaintext: seq<Bit>, key: seq<Bit>)
    requires |plaintext| == 8 && |key| >= 10
    ensures Decrypt(Encrypt(plaintext, key), key) == plaintext
  {
    var ks := KeyExpansion(key);
    FeistelSwappedUndoes(plaintext, ks.k1, ks.k2);
  }

  /** Encryption inverts decryption on every 8-bit block. */
  lemma EncryptDecrypt(ciphertext: seq<Bit>, key: seq<Bit>)
    requires |ciphertext| == 8 && |key| >= 10
    ensures Encrypt(Decrypt(ciphertext, key), key) == ciphertext
  {
    var ks := KeyExpansion(key);
    FeistelSwappedUndoes(ciphertext, ks.k2, ks.k1);
  }

  /** In this variant decryption and encryption are the same function. */
  lemma DecryptIsEncrypt(block: seq<Bit>, key: seq<Bit>)
    requires |block| >= 8 && |key| >= 10
    ensures Decrypt(block, key) == Encrypt(block, key)
  {
    var ks := KeyExpansion(key);
    FeistelSubkeyOrderIrrelevant(block, ks.k1, ks.k2);
  }

  /** Under a fixed key, distinct blocks encrypt to distinct blocks. */
  lemma EncryptInjective(p: seq<Bit>, q: seq<Bit>, key: seq<Bit>)
    requires |p| == 8 && |q| == 8 && |key| >= 10
    requires Encrypt(p, key) == Encrypt(q, key)
    ensures p == q
  {
    DecryptEncrypt(p, key);
    DecryptEncrypt(q, key);
  }
}
