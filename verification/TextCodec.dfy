/** The text wrapper (te2.py lines 148-173): each character becomes one
    8-bit block (its code point, most-significant bit first), each block is
    encrypted on its own with no chaining, and each result block is turned
    back into the character with that code point. */
module TextCodec {
  import opened Bits
  import opened Cipher

  /** A character whose code point fits in one 8-bit block. */
  predicate IsByteChar(c: char) {
    c as int < 256
  }

  predicate IsByteString(s: string) {
    forall i :: 0 <= i < |s| ==> IsByteChar(s[i])
  }

  /** The 8-bit MSB-first form of a one-byte character (f'{ord(c):08b}'). */
  function CharToBits(c: char): (bits: seq<Bit>)
    requires IsByteChar(c)
    ensures |bits| == 8 && ToNat(bits) == c as int
  {
    assert Pow2(8) == 256;
    FromNat(c as int, 8)
  }

  /** The character whose code point an 8-bit block spells (chr(int(bits, 2))). */
  function BitsToChar(bits: seq<Bit>): (c: char)
    requires |bits| == 8
    ensures IsByteChar(c) && c as int == ToNat(bits)
  {
    assert Pow2(8) == 256;
    ToNat(bits) as char
  }

  lemma BitsToCharToBits(c: char)
    requires IsByteChar(c)
    ensures BitsToChar(CharToBits(c)) == c
  {
  }

  lemma {:induction false} CharToBitsToChar(bits: seq<Bit>)
    requires |bits| == 8
    ensures CharToBits(BitsToChar(bits)) == bits
  {
    FromNatToNat(bits);
  }

  function StringToBits(s: string): (blocks: seq<seq<Bit>>)
    requires IsByteString(s)
    ensures |blocks| == |s|
    ensures forall i :: 0 <= i < |s| ==> |blocks[i]| == 8 && ToNat(blocks[i]) == s[i] as int
  {
    seq(|s|, i requires 0 <= i < |s| => CharToBits(s[i]))
  }

  function BitsToString(blocks: seq<seq<Bit>>): (s: string)
    requires forall i :: 0 <= i < |blocks| ==> |blocks[i]| == 8
    ensures |s| == |blocks| && IsByteString(s)
    ensures forall i :: 0 <= i < |s| ==> s[i] as int == ToNat(blocks[i])
  {
    seq(|blocks|, i requires 0 <= i < |blocks| => BitsToChar(blocks[i]))
  }

  /** Decoding the blocks of a one-byte string gives the string back. */
  lemma BitsToStringStringToBits(s: string)
    requires IsByteString(s)
    ensures BitsToString(StringToBits(s)) == s
  {
  }

  /** Encrypts every character independently under the same key. */
  function EncryptString(plaintext: string, key: seq<Bit>): (ciphertext: string)
    requires IsByteString(plaintext) && |key| >= 10
    ensures |ciphertext| == |plaintext| && IsByteString(ciphertext)
    ensures forall i :: 0 <= i < |plaintext| ==>
              ciphertext[i] == BitsToChar(Encrypt(CharToBits(plaintext[i]), key))
  {
    var blocks := StringToBits(plaintext);
    BitsToString(seq(|blocks|, i requires 0 <= i < |blocks| => Encrypt(blocks[i], key)))
  }

  /** Decrypts every character independently under the same key. */
  function DecryptString(ciphertext: string, key: seq<Bit>): (plaintext: string)
    requires IsByteString(ciphertext) && |key| >= 10
    ensures |plaintext| == |ciphertext| && IsByteString(plaintext)
    ensures forall i :: 0 <= i < |ciphertext| ==>
              plaintext[i] == BitsToChar(Decrypt(CharToBits(ciphertext[i]), key))
  {
    var blocks := StringToBits(ciphertext);
    BitsToString(seq(|blocks|, i requires 0 <= i < |blocks| => Decrypt(blocks[i], key)))
  }

  /** Equal plaintext characters give equal ciphertext characters. */
  lemma EncryptStringIsPerCharacter(plaintext: string, key: seq<Bit>, i: nat, j: nat)
    requires IsByteString(plaintext) && |key| >= 10
    requires i < |plaintext| && j < |plaintext| && plaintext[i] == plaintext[j]
    ensures EncryptString(plaintext, key)[i] == EncryptString(plaintext, key)[j]
  {
  }

  /** Decrypting an encrypted one-byte string gives it back. */
  lemma {:induction false} DecryptStringEncryptString(plaintext: string, key: seq<Bit>)
    requires IsByteString(plaintext) && |key| >= 10
    ensures DecryptString(EncryptString(plaintext, key), key) == plaintext
  {
    var ciphertext := EncryptString(plaintext, key);
    var back := DecryptString(ciphertext, key);
    forall i | 0 <= i < |plaintext| ensures back[i] == plaintext[i] {
      var block := CharToBits(plaintext[i]);
      var encrypted := Encrypt(block, key);
      CharToBitsToChar(encrypted);
      DecryptEncrypt(block, key);
    }
  }

  /** Encrypting a decrypted one-byte string gives it back. */
  lemma {:induction false} EncryptStringDecryptString(ciphertext: string, key: seq<Bit>)
    requires IsByteString(ciphertext) && |key| >= 10
    ensures EncryptString(DecryptString(ciphertext, key), key) == ciphertext
  {
    var plaintext := DecryptString(ciphertext, key);
    var back := EncryptString(plaintext, key);
    forall i | 0 <= i < |ciphertext| ensures back[i] == ciphertext[i] {
      var block := CharToBits(ciphertext[i]);
      var decrypted := Decrypt(block, key);
      CharToBitsToChar(decrypted);
      EncryptDecrypt(block, key);
    }
  }
}
