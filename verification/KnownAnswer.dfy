/** One concrete encryption worked through every stage of the cipher:
    key 1010000010 and plaintext 10111101. Intermediate values are stated
    entry by entry so that each step is proved on its own. */
module KnownAnswer {
  import opened Bits
  import opened Tables
  import opened KeySchedule
  import opened Round
  import opened Cipher

  /** s holds exactly the bits of the pattern. Stated entry by entry rather
      than as s == pattern, and several lemmas below take two cases in one
      disjunctive requires: both keep each proof obligation small, since an
      equation with a literal sequence makes the solver unfold every
      function applied to it. */
  predicate Holds(s: seq<Bit>, pattern: seq<Bit>) {
    |s| == |pattern| && forall i :: 0 <= i < |s| ==> s[i] == pattern[i]
  }

  lemma KnownSubkeys(key: seq<Bit>)
    requires Holds(key, [1, 0, 1, 0, 0, 0, 0, 0, 1, 0])
    ensures Holds(KeyExpansion(key).k1, [1, 0, 1, 0, 0, 1, 0, 0])
    ensures Holds(KeyExpansion(key).k2, [0, 1, 0, 0, 0, 0, 1, 1])
  {
    SubkeysSelectKeyBits(key);
    KnownSelection(key, K1Select, [1, 0, 1, 0, 0, 1, 0, 0]);
    KnownSelection(key, K2Select, [0, 1, 0, 0, 0, 0, 1, 1]);
  }

  lemma KnownSelection(key: seq<Bit>, select: seq<int>, expected: seq<Bit>)
    requires Holds(key, [1, 0, 1, 0, 0, 0, 0, 0, 1, 0])
    requires || (select == K1Select && expected == [1, 0, 1, 0, 0, 1, 0, 0])
             || (select == K2Select && expected == [0, 1, 0, 0, 0, 0, 1, 1])
    ensures ValidTable(select, |key|)
    ensures Holds(Permute(key, select), expected)
  {
  }

  lemma KnownExpansion(r0: seq<Bit>)
    requires Holds(r0, [1, 1, 1, 0])
    ensures ValidTable(EP, |r0|)
    ensures Holds(Permute(r0, EP), [0, 1, 1, 1, 1, 1, 0, 1])
  {
  }

  lemma KnownMix(r0: seq<Bit>, k: seq<Bit>, mixed: seq<Bit>)
    requires Holds(r0, [1, 1, 1, 0])
    requires || (Holds(k, [1, 0, 1, 0, 0, 1, 0, 0]) && mixed == [1, 1, 0, 1, 1, 0, 0, 1])
             || (Holds(k, [0, 1, 0, 0, 0, 0, 1, 1]) && mixed == [0, 0, 1, 1, 1, 1, 1, 0])
    ensures Holds(Mix(r0, k), mixed)
  {
    KnownExpansion(r0);
    var expanded := Permute(r0, EP);
    assert Mix(r0, k) == Xor(expanded, k);
    if Holds(k, [1, 0, 1, 0, 0, 1, 0, 0]) {
      XorHolds(expanded, k, [0, 1, 1, 1, 1, 1, 0, 1], [1, 0, 1, 0, 0, 1, 0, 0], mixed);
    } else {
      XorHolds(expanded, k, [0, 1, 1, 1, 1, 1, 0, 1], [0, 1, 0, 0, 0, 0, 1, 1], mixed);
    }
  }

  /** The xor of two known vectors, computed entry by entry. */
  lemma XorHolds(a: seq<Bit>, b: seq<Bit>, pa: seq<Bit>, pb: seq<Bit>, out: seq<Bit>)
    requires Holds(a, pa) && Holds(b, pb) && |pa| == |pb| == |out|
    requires forall i :: 0 <= i < |out| ==> (out[i] == 1 <==> pa[i] != pb[i])
    ensures Holds(Xor(a, b), out)
  {
  }

  lemma KnownSubstitute(mixed: seq<Bit>, out: seq<Bit>)
    requires || (Holds(mixed, [1, 1, 0, 1, 1, 0, 0, 1]) && out == [0, 0, 1, 0])
             || (Holds(mixed, [0, 0, 1, 1, 1, 1, 1, 0]) && out == [1, 0, 1, 0])
    ensures Holds(Substitute(mixed), out)
  {
    TablesInRange();
  }

  lemma KnownRound(r0: seq<Bit>, k: seq<Bit>, out: seq<Bit>)
    requires Holds(r0, [1, 1, 1, 0])
    requires || (Holds(k, [1, 0, 1, 0, 0, 1, 0, 0]) && out == [0, 0, 1, 0])
             || (Holds(k, [0, 1, 0, 0, 0, 0, 1, 1]) && out == [0, 0, 1, 1])
    ensures Holds(F(r0, k), out)
  {
    TablesInRange();
    if Holds(k, [1, 0, 1, 0, 0, 1, 0, 0]) {
      KnownMix(r0, k, [1, 1, 0, 1, 1, 0, 0, 1]);
      KnownSubstitute(Mix(r0, k), [0, 0, 1, 0]);
    } else {
      KnownMix(r0, k, [0, 0, 1, 1, 1, 1, 1, 0]);
      KnownSubstitute(Mix(r0, k), [1, 0, 1, 0]);
    }
  }

  /** A half masked by one round's f output. */
  lemma KnownMask(half: seq<Bit>, r0: seq<Bit>, k: seq<Bit>, out: seq<Bit>)
    requires Holds(r0, [1, 1, 1, 0])
    requires || (Holds(half, [0, 1, 1, 1]) && Holds(k, [1, 0, 1, 0, 0, 1, 0, 0]) && out == [0, 1, 0, 1])
             || (Holds(half, [0, 1, 0, 1]) && Holds(k, [0, 1, 0, 0, 0, 0, 1, 1]) && out == [0, 1, 1, 0])
    ensures Holds(Xor(half, F(r0, k)), out)
  {
    if Holds(k, [1, 0, 1, 0, 0, 1, 0, 0]) {
      KnownRound(r0, k, [0, 0, 1, 0]);
    } else {
      KnownRound(r0, k, [0, 0, 1, 1]);
    }
  }

  lemma KnownRounds(ip: seq<Bit>, k1: seq<Bit>, k2: seq<Bit>)
    requires Holds(ip, [0, 1, 1, 1, 1, 1, 1, 0])
    requires Holds(k1, [1, 0, 1, 0, 0, 1, 0, 0]) && Holds(k2, [0, 1, 0, 0, 0, 0, 1, 1])
    ensures Holds(Rounds(ip, k1, k2), [0, 1, 1, 0, 1, 1, 1, 0])
  {
    var l0, r0 := ip[..4], ip[4..];
    assert Holds(l0, [0, 1, 1, 1]) && Holds(r0, [1, 1, 1, 0]);
    KnownMask(l0, r0, k1, [0, 1, 0, 1]);
    var r1 := Xor(l0, F(r0, k1));
    KnownMask(r1, r0, k2, [0, 1, 1, 0]);
    var r2 := Xor(r1, F(r0, k2));
    assert Rounds(ip, k1, k2) == r2 + r0;
    KnownJoin(r2, r0);
  }

  lemma KnownJoin(r2: seq<Bit>, r0: seq<Bit>)
    requires Holds(r2, [0, 1, 1, 0]) && Holds(r0, [1, 1, 1, 0])
    ensures Holds(r2 + r0, [0, 1, 1, 0, 1, 1, 1, 0])
  {
  }

  lemma KnownFinal(combined: seq<Bit>)
    requires Holds(combined, [0, 1, 1, 0, 1, 1, 1, 0])
    ensures ValidTable(IPInverse, |combined|)
    ensures Holds(Permute(combined, IPInverse), [0, 0, 1, 1, 1, 1, 0, 1])
  {
    TablesInRange();
  }

  /** Key 1010000010 encrypts plaintext 10111101 to 00111101. */
  lemma KnownVector(plaintext: seq<Bit>, key: seq<Bit>)
    requires Holds(plaintext, [1, 0, 1, 1, 1, 1, 0, 1])
    requires Holds(key, [1, 0, 1, 0, 0, 0, 0, 0, 1, 0])
    ensures Holds(Encrypt(plaintext, key), [0, 0, 1, 1, 1, 1, 0, 1])
  {
    TablesInRange();
    KnownSubkeys(key);
    var ks := KeyExpansion(key);
    var ip := Permute(plaintext, IP);
    assert Holds(ip, [0, 1, 1, 1, 1, 1, 1, 0]);
    KnownRounds(ip, ks.k1, ks.k2);
    var combined := Rounds(ip, ks.k1, ks.k2);
    KnownFinal(combined);
    assert Encrypt(plaintext, key) == Permute(combined, IPInverse);
  }
}
