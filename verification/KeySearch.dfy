/** Exhaustive key search (te2.py lines 15-36): every 10-bit key is tried
    against a known plaintext/ciphertext pair and all keys under which the
    ciphertext decrypts to the plaintext are returned. te2.py spreads
    the attempts over a thread pool; only which keys are found is modelled,
    as a sequential pass over the keys in ascending order. */
module KeySearch {
  import opened Bits
  import opened Tables
  import opened Cipher

  datatype Option<T> = None | Some(value: T)

  /** The number of 10-bit keys. */
  const KeyCount: nat := 1024

  /** Key i is the 10-digit MSB-first binary form of i (format(i, '010b')). */
  function GenerateAllKeys(): (keys: seq<seq<Bit>>)
    ensures |keys| == KeyCount
    ensures forall i :: 0 <= i < KeyCount ==> |keys[i]| == 10 && ToNat(keys[i]) == i
  {
    assert Pow2(10) == KeyCount;
    seq(KeyCount, i requires 0 <= i < KeyCount => FromNat(i, 10))
  }

  /** No key is generated twice. */
  lemma AllKeysDistinct(i: nat, j: nat)
    requires i < KeyCount && j < KeyCount && i != j
    ensures GenerateAllKeys()[i] != GenerateAllKeys()[j]
  {
  }

  /** Every 10-bit key is generated, at the index its value names. */
  lemma {:induction false} EveryKeyGenerated(key: seq<Bit>)
    requires |key| == 10
    ensures ToNat(key) < KeyCount && GenerateAllKeys()[ToNat(key)] == key
  {
    assert Pow2(10) == KeyCount;
    var keys := GenerateAllKeys();
    ToNatInjective(keys[ToNat(key)], key);
  }

  /** The generated keys are exactly the 10-bit keys, each listed once. */
  lemma {:induction false} GeneratedKeysAreTheKeySpace()
    ensures forall key :: key in GenerateAllKeys() <==> |key| == 10
    ensures forall a, b :: 0 <= a < b < |GenerateAllKeys()| ==> GenerateAllKeys()[a] != GenerateAllKeys()[b]
  {
    var keys := GenerateAllKeys();
    forall key | |key| == 10 ensures key in keys {
      EveryKeyGenerated(key);
    }
    forall a, b | 0 <= a < b < |keys| ensures keys[a] != keys[b] {
      AllKeysDistinct(a, b);
    }
  }

  /** The key itself when the ciphertext decrypts to the plaintext under it, else nothing. */
  function TryKey(key: seq<Bit>, plaintext: seq<Bit>, ciphertext: seq<Bit>): (r: Option<seq<Bit>>)
    requires |key| >= 10 && |ciphertext| >= 8
    ensures r.Some? <==> Decrypt(ciphertext, key) == plaintext
    ensures r.Some? ==> r.value == key
  {
    if Decrypt(ciphertext, key) == plaintext then Some(key) else None
  }

  /** A pair whose IP right halves differ has no key: decryption keeps that half. */
  lemma NoKeyWhenRightHalvesDiffer(plaintext: seq<Bit>, ciphertext: seq<Bit>, key: seq<Bit>)
    requires |plaintext| >= 8 && |ciphertext| >= 8 && |key| >= 10
    requires Permute(plaintext, IP)[4..] != Permute(ciphertext, IP)[4..]
    ensures Decrypt(ciphertext, key) != plaintext
  {
  }

  /** The candidates that pass the test, in the order tried. */
  function Matching(candidates: seq<seq<Bit>>, opens: seq<Bit> -> bool): (keys: seq<seq<Bit>>)
    ensures |keys| <= |candidates|
  {
    if candidates == [] then []
    else
      var last := candidates[|candidates| - 1];
      var earlier := Matching(candidates[..|candidates| - 1], opens);
      if opens(last) then earlier + [last] else earlier
  }

  /** A key is matched exactly when it is a candidate that passes the test;
      distinct candidates give distinct matches. */
  lemma {:induction false} MatchingMembers(candidates: seq<seq<Bit>>, opens: seq<Bit> -> bool)
    requires forall a, b :: 0 <= a < b < |candidates| ==> candidates[a] != candidates[b]
    ensures var keys := Matching(candidates, opens);
      && (forall key :: key in keys <==> key in candidates && opens(key))
      && (forall a, b :: 0 <= a < b < |keys| ==> keys[a] != keys[b])
    decreases |candidates|
  {
    if candidates != [] {
      var front := candidates[..|candidates| - 1];
      MatchingMembers(front, opens);
      assert candidates == front + [candidates[|candidates| - 1]];
    }
  }

  /** Tries each candidate in order and keeps those that pass the test. */
  method SearchKeys(candidates: seq<seq<Bit>>, opens: seq<Bit> -> bool) returns (found: seq<seq<Bit>>)
    ensures found == Matching(candidates, opens)
  {
    found := [];
    var i := 0;
    while i < |candidates|
      invariant 0 <= i <= |candidates|
      invariant found == Matching(candidates[..i], opens)
    {
      var key := candidates[i];
      assert candidates[..i + 1][..i] == candidates[..i];
      if opens(key) {
        found := found + [key];
      }
      i := i + 1;
    }
    assert candidates[..i] == candidates;
  }

  /** Every 10-bit key that decrypts the ciphertext to the plaintext, each once. */
  method BruteForce(plaintext: seq<Bit>, ciphertext: seq<Bit>) returns (found: seq<seq<Bit>>)
    requires |ciphertext| >= 8
    ensures forall key :: key in found ==> |key| == 10 && Decrypt(ciphertext, key) == plaintext
    ensures forall key :: |key| == 10 && Decrypt(ciphertext, key) == plaintext ==> key in found
    ensures forall a, b :: 0 <= a < b < |found| ==> found[a] != found[b]
    ensures |plaintext| == 8 ==>
              forall key :: |key| == 10 && Encrypt(plaintext, key) == ciphertext ==> key in found
  {
    var keys := GenerateAllKeys();
    GeneratedKeysAreTheKeySpace();
    var opens := key => |key| >= 10 && TryKey(key, plaintext, ciphertext).Some?;
    found := SearchKeys(keys, opens);
    MatchingMembers(keys, opens);
    if |plaintext| == 8 {
      forall key | |key| == 10 && Encrypt(plaintext, key) == ciphertext
        ensures key in found
      {
        DecryptEncrypt(plaintext, key);
      }
    }
  }

  /** A pair whose IP right halves differ leaves the search empty-handed. */
  lemma BruteForceEmptyWhenRightHalvesDiffer(plaintext: seq<Bit>, ciphertext: seq<Bit>, found: seq<seq<Bit>>)
    requires |plaintext| >= 8 && |ciphertext| >= 8
    requires Permute(plaintext, IP)[4..] != Permute(ciphertext, IP)[4..]
    requires forall k :: k in found ==> |k| == 10 && Decrypt(ciphertext, k) == plaintext
    ensures found == []
  {
    if found != [] {
      NoKeyWhenRightHalvesDiffer(plaintext, ciphertext, found[0]);
    }
  }
}
