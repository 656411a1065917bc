/** Bit-vector helpers of the toy S-DES cipher: table permutation, left
    rotation, element-wise exclusive-or, and the MSB-first binary encoding
    of naturals that the key enumeration and the text codec rely on.
    A bit vector is a sequence of 0/1 integers, as in the original lists. */
module Bits {

  type Bit = b: int | 0 <= b <= 1

  /** A table of 1-based source indices, each valid for an input of length n. */
  predicate ValidTable(table: seq<int>, n: nat) {
    forall i :: 0 <= i < |table| ==> 1 <= table[i] <= n
  }

  /** output[i] is input[table[i] - 1]: one output bit per table entry. */
  function Permute<T>(input: seq<T>, table: seq<int>): (r: seq<T>)
    requires ValidTable(table, |input|)
    ensures |r| == |table|
    ensures forall i :: 0 <= i < |table| ==> r[i] == input[table[i] - 1]
  {
    seq(|table|, i requires 0 <= i < |table| => input[table[i] - 1])
  }

  /** The table of the permutation that applies `first` and then `second`. */
  function Compose(first: seq<int>, second: seq<int>): seq<int>
    requires ValidTable(second, |first|)
  {
    seq(|second|, i requires 0 <= i < |second| => first[second[i] - 1])
  }

  /** Permuting twice is permuting once by the composed table. */
  lemma PermuteCompose<T>(input: seq<T>, first: seq<int>, second: seq<int>)
    requires ValidTable(first, |input|)
    requires ValidTable(second, |first|)
    ensures ValidTable(Compose(first, second), |input|)
    ensures Permute(Permute(input, first), second) == Permute(input, Compose(first, second))
  {
    var c := Compose(first, second);
    assert ValidTable(c, |input|) by {
      forall i | 0 <= i < |c| ensures 1 <= c[i] <= |input| {
        assert c[i] == first[second[i] - 1];
      }
    }
    var twice, once := Permute(Permute(input, first), second), Permute(input, c);
    var inner := Permute(input, first);
    forall i | 0 <= i < |second| ensures twice[i] == once[i] {
      var j := second[i] - 1;
      assert twice[i] == inner[j] == input[first[j] - 1];
      assert once[i] == input[c[i] - 1];
    }
    assert |twice| == |once|;
  }

  /** The identity table [1, 2, ..., n]. */
  function Identity(n: nat): (t: seq<int>)
    ensures ValidTable(t, n)
  {
    seq(n, i => i + 1)
  }

  lemma PermuteIdentity<T>(input: seq<T>)
    ensures Permute(input, Identity(|input|)) == input
  {
  }

  /** Python's bits[n:] + bits[:n]: slices clamp, so a shift of at least the
      length gives the list back unchanged. */
  function LeftShift<T>(bits: seq<T>, n: nat): (r: seq<T>)
    ensures |r| == |bits|
    ensures n <= |bits| ==> forall i :: 0 <= i < |bits| - n ==> r[i] == bits[i + n]
    ensures n <= |bits| ==> forall i :: |bits| - n <= i < |bits| ==> r[i] == bits[i + n - |bits|]
    ensures n >= |bits| ==> r == bits
  {
    var m := if n <= |bits| then n else |bits|;
    bits[m..] + bits[..m]
  }

  /** Rotating by n and then by m is rotating by n + m (while n + m fits). */
  lemma {:induction false} LeftShiftAdd<T>(bits: seq<T>, n: nat, m: nat)
    requires n + m <= |bits|
    ensures LeftShift(LeftShift(bits, n), m) == LeftShift(bits, n + m)
  {
    var once := LeftShift(bits, n);
    assert once == bits[n..] + bits[..n];
    assert once[m..] == bits[n + m..] + bits[..n];
    assert once[..m] == bits[n..n + m];
    assert bits[..n] + bits[n..n + m] == bits[..n + m];
  }

  function XorBit(a: Bit, b: Bit): Bit {
    (a + b) % 2
  }

  /** Element-wise exclusive-or over zip(a, b): the shorter input decides the length. */
  function Xor(a: seq<Bit>, b: seq<Bit>): (r: seq<Bit>)
    ensures |r| == if |a| <= |b| then |a| else |b|
    ensures forall i :: 0 <= i < |r| ==> (r[i] == 1 <==> a[i] != b[i])
  {
    if |a| == 0 || |b| == 0 then []
    else [XorBit(a[0], b[0])] + Xor(a[1..], b[1..])
  }

  /** xor with the same vector twice gives the original back. */
  lemma XorCancel(a: seq<Bit>, b: seq<Bit>)
    requires |a| == |b|
    ensures Xor(Xor(a, b), b) == a
  {
    var r := Xor(Xor(a, b), b);
    forall i | 0 <= i < |a| ensures r[i] == a[i] {
      assert Xor(a, b)[i] == 1 <==> a[i] != b[i];
    }
  }

  /** The two masks of a double xor can be applied in either order. */
  lemma XorSwapMasks(a: seq<Bit>, b: seq<Bit>, c: seq<Bit>)
    requires |a| == |b| == |c|
    ensures Xor(Xor(a, b), c) == Xor(Xor(a, c), b)
  {
    var ab, ac := Xor(a, b), Xor(a, c);
    var l, r := Xor(ab, c), Xor(ac, b);
    assert |l| == |r| == |a|;
    forall i | 0 <= i < |a| ensures l[i] == r[i] {
      assert ab[i] == 1 <==> a[i] != b[i];
      assert ac[i] == 1 <==> a[i] != c[i];
      assert l[i] == 1 <==> ab[i] != c[i];
      assert r[i] == 1 <==> ac[i] != b[i];
    }
  }

  function Pow2(n: nat): (p: nat)
    ensures p >= 1
  {
    if n == 0 then 1 else 2 * Pow2(n - 1)
  }

  /** The value of a bit vector read most-significant bit first, like
      Python's int(''.join(map(str, bits)), 2). */
  function ToNat(bits: seq<Bit>): (v: nat)
    ensures v < Pow2(|bits|)
  {
    if |bits| == 0 then 0
    else 2 * ToNat(bits[..|bits| - 1]) + bits[|bits| - 1]
  }

  /** The width-digit binary form of n, most-significant bit first, like
      Python's format(n, '0{width}b') when n fits in width bits. */
  function FromNat(n: nat, width: nat): (bits: seq<Bit>)
    requires n < Pow2(width)
    ensures |bits| == width
    ensures ToNat(bits) == n
  {
    if width == 0 then []
    else
      var prefix := FromNat(n / 2, width - 1);
      var bits := prefix + [n % 2];
      assert bits[..width - 1] == prefix;
      bits
  }

  /** Encoding a vector's own value at its own width gives the vector back. */
  lemma {:induction false} FromNatToNat(bits: seq<Bit>)
    ensures FromNat(ToNat(bits), |bits|) == bits
  {
    if |bits| > 0 {
      var k := |bits| - 1;
      FromNatToNat(bits[..k]);
      assert bits == bits[..k] + [bits[k]];
    }
  }

  /** Two vectors of one width with the same value are equal. */
  lemma ToNatInjective(a: seq<Bit>, b: seq<Bit>)
    requires |a| == |b|
    requires ToNat(a) == ToNat(b)
    ensures a == b
  {
    FromNatToNat(a);
    FromNatToNat(b);
  }
}
