/** Key schedule (te2.py lines 51-67): a 10-bit key yields two 8-bit
    subkeys via P10, a rotation of both 5-bit halves, and P8. */
module KeySchedule {
  import opened Bits
  import opened Tables

  datatype Subkeys = Subkeys(k1: seq<Bit>, k2: seq<Bit>)

  /** The two 5-bit halves of the P10-permuted key. */
  function Halves(key: seq<Bit>): (h: (seq<Bit>, seq<Bit>))
    requires |key| >= 10
    ensures |h.0| == 5 && |h.1| == 5
    ensures h.0 + h.1 == Permute(key, P10)
  {
    var permuted := Permute(key, P10);
    (permuted[..5], permuted[5..])
  }

  /** K1 is P8 of the halves rotated by 1; K2 is P8 of those halves
      rotated by 2 more. Only the first 10 key bits are read. */
  function KeyExpansion(key: seq<Bit>): (ks: Subkeys)
    requires |key| >= 10
    ensures |ks.k1| == 8 && |ks.k2| == 8
  {
    var (left, right) := Halves(key);
    var left1 := LeftShift(left, 1);
    var right1 := LeftShift(right, 1);
    var left2 := LeftShift(left1, 2);
    var right2 := LeftShift(right1, 2);
    Subkeys(Permute(left1 + right1, P8), Permute(left2 + right2, P8))
  }

  /** Which key bit (1-based) each bit of K1 and of K2 is: the composition
      of P10, the half rotations and P8, as SelectionTables proves. */
  const K1Select: seq<int> := [1, 7, 9, 4, 8, 3, 10, 6]
  const K2Select: seq<int> := [8, 3, 6, 5, 10, 2, 9, 1]

  /** K2 is P8 of the original P10 halves rotated cumulatively by 3. */
  lemma SecondSubkeyRotatesByThree(key: seq<Bit>)
    requires |key| >= 10
    ensures KeyExpansion(key).k2
         == Permute(LeftShift(Halves(key).0, 3) + LeftShift(Halves(key).1, 3), P8)
  {
    var (left, right) := Halves(key);
    LeftShiftAdd(left, 1, 2);
    LeftShiftAdd(right, 1, 2);
  }

  /** The 1-based table that rotates both 5-bit halves of a 10-bit vector left by n. */
  function HalfRotation(n: nat): (t: seq<int>)
    requires n <= 5
    ensures |t| == 10 && ValidTable(t, 10)
  {
    seq(10, i => var start := if i < 5 then 0 else 5;
                 if i - start + n < 5 then i + n + 1 else i + n - 4)
  }

  /** Rotating the two halves separately is one permutation of their concatenation. */
  lemma RotateHalvesIsPermute(left: seq<Bit>, right: seq<Bit>, n: nat)
    requires |left| == 5 && |right| == 5 && n <= 5
    ensures LeftShift(left, n) + LeftShift(right, n) == Permute(left + right, HalfRotation(n))
  {
    var lhs := LeftShift(left, n) + LeftShift(right, n);
    var rhs := Permute(left + right, HalfRotation(n));
    forall i | 0 <= i < 10 ensures lhs[i] == rhs[i] {
      if i >= 5 {
        assert lhs[i] == LeftShift(right, n)[i - 5];
      }
    }
  }

  lemma SelectionTables()
    ensures ValidTable(HalfRotation(1), |P10|) && ValidTable(P8, 10)
    ensures Compose(Compose(P10, HalfRotation(1)), P8) == K1Select
    ensures Compose(Compose(P10, HalfRotation(3)), P8) == K2Select
  {
  }

  /** Rotating the halves of a 10-bit selection by n and compressing the
      result selects key bits by the composed table. */
  lemma {:induction false} RotatedSubkeySelects(key: seq<Bit>, spread: seq<int>, compress: seq<int>, n: nat)
    requires |spread| == 10 && ValidTable(spread, |key|) && ValidTable(compress, 10) && n <= 5
    ensures ValidTable(Compose(Compose(spread, HalfRotation(n)), compress), |key|)
    ensures Permute(LeftShift(Permute(key, spread)[..5], n) + LeftShift(Permute(key, spread)[5..], n), compress)
         == Permute(key, Compose(Compose(spread, HalfRotation(n)), compress))
  {
    var spreadKey := Permute(key, spread);
    var left, right := spreadKey[..5], spreadKey[5..];
    var rot := HalfRotation(n);
    RotateHalvesIsPermute(left, right, n);
    assert left + right == spreadKey;
    PermuteCompose(key, spread, rot);
    PermuteCompose(key, Compose(spread, rot), compress);
  }

  /** Each subkey is a fixed selection of eight of the ten key bits. */
  lemma SubkeysSelectKeyBits(key: seq<Bit>)
    requires |key| >= 10
    ensures ValidTable(K1Select, |key|) && KeyExpansion(key).k1 == Permute(key, K1Select)
    ensures ValidTable(K2Select, |key|) && KeyExpansion(key).k2 == Permute(key, K2Select)
  {
    SelectionTables();
    TablesInRange();
    RotatedSubkeySelects(key, P10, P8, 1);
    RotatedSubkeySelects(key, P10, P8, 3);
    SecondSubkeyRotatesByThree(key);
  }
}
