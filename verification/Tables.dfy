/** The fixed permutation tables and substitution boxes of the cipher
    (te2.py lines 5-13). Permutation entries are 1-based indices into the
    input the table is applied to. */
module Tables {
  import opened Bits

  /** Key schedule: 10 -> 10 reordering of the master key. */
  const P10: seq<int> := [3, 5, 2, 7, 4, 10, 1, 9, 8, 6]
  /** Key schedule: 10 -> 8 compression producing a subkey. */
  const P8: seq<int> := [6, 3, 7, 4, 8, 5, 10, 9]
  /** Initial permutation of a block. */
  const IP: seq<int> := [2, 6, 3, 1, 4, 8, 5, 7]
  /** Final permutation, the inverse of IP. */
  const IPInverse: seq<int> := [4, 1, 3, 5, 7, 2, 8, 6]
  /** Round function: 4 -> 8 expansion of a half block. */
  const EP: seq<int> := [4, 1, 2, 3, 2, 3, 4, 1]
  /** Round function: 4 -> 4 permutation of the S-box outputs. */
  const P4: seq<int> := [2, 4, 3, 1]

  const SBox1: seq<seq<int>> := [[1, 0, 3, 2], [3, 2, 1, 0], [0, 2, 1, 3], [3, 1, 0, 2]]
  const SBox2: seq<seq<int>> := [[0, 1, 2, 3], [2, 3, 1, 0], [3, 0, 1, 2], [2, 1, 0, 3]]

  /** A 4 x 4 table of 2-bit values. */
  predicate IsSBox(box: seq<seq<int>>) {
    && |box| == 4
    && (forall row :: 0 <= row < 4 ==> |box[row]| == 4)
    && (forall row, col :: 0 <= row < 4 && 0 <= col < 4 ==> 0 <= box[row][col] < 4)
  }

  /** A table that uses every index 1..n exactly once. */
  predicate IsPermutationOf(table: seq<int>, n: nat) {
    && |table| == n
    && ValidTable(table, n)
    && forall i, j :: 0 <= i < j < n ==> table[i] != table[j]
  }

  /** Every table is applied to an input whose length covers all its entries:
      P10 and P8 to 10 bits, IP and its inverse to 8, EP and P4 to 4. */
  lemma TablesInRange()
    ensures |P10| == 10 && ValidTable(P10, 10)
    ensures |P8| == 8 && ValidTable(P8, 10)
    ensures |IP| == 8 && ValidTable(IP, 8)
    ensures |IPInverse| == 8 && ValidTable(IPInverse, 8)
    ensures |EP| == 8 && ValidTable(EP, 4)
    ensures |P4| == 4 && ValidTable(P4, 4)
    ensures IsSBox(SBox1) && IsSBox(SBox2)
  {
  }

  /** The reorderings P10, IP, IP inverse and P4 use every index exactly once. */
  lemma TablesArePermutations()
    ensures IsPermutationOf(P10, 10)
    ensures IsPermutationOf(IP, 8) && IsPermutationOf(IPInverse, 8)
    ensures IsPermutationOf(P4, 4)
  {
  }

  lemma ComposedInitialPermutations()
    ensures ValidTable(IPInverse, |IP|) && Compose(IP, IPInverse) == Identity(8)
    ensures ValidTable(IP, |IPInverse|) && Compose(IPInverse, IP) == Identity(8)
  {
  }

  /** IP inverse undoes IP and IP undoes IP inverse on every 8-bit block. */
  lemma {:induction false} InitialPermutationInverse<T>(x: seq<T>)
    requires |x| == 8
    ensures Permute(Permute(x, IP), IPInverse) == x
    ensures Permute(Permute(x, IPInverse), IP) == x
  {
    ComposedInitialPermutations();
    PermuteIdentity(x);
    PermuteCompose(x, IP, IPInverse);
    PermuteCompose(x, IPInverse, IP);
  }
}
