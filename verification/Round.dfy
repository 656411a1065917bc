/** The round function f (te2.py lines 70-94): expand a 4-bit half with EP,
    xor with the subkey, substitute each 4-bit half through its S-box, and
    permute the four output bits with P4. */
module Round {
  import opened Bits
  import opened Tables

  /** The S-box entry selected by a 4-bit input: row from bits 0 and 3,
      column from bits 1 and 2. On 0/1 values te2.py's (a << 1) | b
      is 2 * a + b, so both indices lie in 0..3. */
  function SBoxLookup(box: seq<seq<int>>, input: seq<Bit>): (v: nat)
    requires IsSBox(box) && |input| >= 4
    ensures v < 4
  {
    var row := 2 * input[0] as int + input[3] as int;
    var col := 2 * input[1] as int + input[2] as int;
    box[row][col]
  }

  /** EP expansion of the half, xored with the subkey: the 8 S-box input bits. */
  function Mix(half: seq<Bit>, subkey: seq<Bit>): (mixed: seq<Bit>)
    requires |half| >= 4 && |subkey| >= 8
    ensures |mixed| == 8
  {
    TablesInRange();
    Xor(Permute(half, EP), subkey)
  }

  /** The 2-digit binary form of an S-box output, most-significant bit first
      (te2.py's f'{v:02b}'). */
  function TwoBits(v: nat): (bits: seq<Bit>)
    requires v < 4
    ensures |bits| == 2 && ToNat(bits) == v
  {
    [v / 2, v % 2]
  }

  /** Both S-box outputs as 2-bit MSB-first numbers, before P4. */
  function Substitute(mixed: seq<Bit>): (bits: seq<Bit>)
    requires |mixed| == 8
    ensures |bits| == 4
  {
    TablesInRange();
    var left := mixed[..4];
    var right := mixed[4..];
    TwoBits(SBoxLookup(SBox1, left)) + TwoBits(SBoxLookup(SBox2, right))
  }

  /** Only the first 4 bits of the half and the first 8 bits of the subkey
      are read (EP indexes at most bit 4, and zip stops at the shorter list). */
  function F(half: seq<Bit>, subkey: seq<Bit>): (out: seq<Bit>)
    requires |half| >= 4 && |subkey| >= 8
    ensures |out| == 4
  {
    TablesInRange();
    Permute(Substitute(Mix(half, subkey)), P4)
  }

  /** Where each output bit of f comes from: P4 = [2, 4, 3, 1] puts the low
      bit of the first S-box output first, then the low and high bits of the
      second, then the high bit of the first. Each S-box reads the entries of
      the expanded half that differ from the subkey. */
  lemma {:induction false} FOutputBits(half: seq<Bit>, subkey: seq<Bit>)
    requires |half| >= 4 && |subkey| >= 8
    ensures var mixed := Mix(half, subkey);
      && (forall i :: 0 <= i < 8 ==> (mixed[i] == 1 <==> half[EP[i] - 1] != subkey[i]))
      && var s1 := SBoxLookup(SBox1, mixed[..4]);
         var s2 := SBoxLookup(SBox2, mixed[4..]);
         F(half, subkey) == [s1 % 2, s2 % 2, s2 / 2, s1 / 2]
  {
    TablesInRange();
    var mixed := Mix(half, subkey);
    var expanded := Permute(half, EP);
    forall i | 0 <= i < 8 ensures mixed[i] == 1 <==> half[EP[i] - 1] != subkey[i] {
      assert mixed[i] == 1 <==> expanded[i] != subkey[i];
    }
    var s1 := SBoxLookup(SBox1, mixed[..4]);
    var s2 := SBoxLookup(SBox2, mixed[4..]);
    var bits := TwoBits(s1) + TwoBits(s2);
    assert Substitute(mixed) == bits;
    var out := F(half, subkey);
    assert out == Permute(bits, P4);
    assert out[0] == bits[1] && out[1] == bits[3] && out[2] == bits[2] && out[3] == bits[0];
  }

  /** A table that only reads the first n entries sees the same prefix. */
  lemma PermutePrefix<T>(input: seq<T>, table: seq<int>, n: nat)
    requires n <= |input| && ValidTable(table, n)
    ensures Permute(input, table) == Permute(input[..n], table)
  {
    var long, short := Permute(input, table), Permute(input[..n], table);
    forall i | 0 <= i < |table| ensures long[i] == short[i] {
    }
  }

  /** f depends on nothing beyond the first 4 half bits and 8 subkey bits. */
  lemma FReadsPrefixes(half: seq<Bit>, subkey: seq<Bit>)
    requires |half| >= 4 && |subkey| >= 8
    ensures F(half, subkey) == F(half[..4], subkey[..8])
  {
    MixReadsPrefixes(half, subkey);
  }

  lemma MixReadsPrefixes(half: seq<Bit>, subkey: seq<Bit>)
    requires |half| >= 4 && |subkey| >= 8
    ensures Mix(half, subkey) == Mix(half[..4], subkey[..8])
  {
    TablesInRange();
    PermutePrefix(half, EP, 4);
    var expanded := Permute(half, EP);
    var long, short := Xor(expanded, subkey), Xor(expanded, subkey[..8]);
    assert |long| == |short| == 8;
    forall i | 0 <= i < 8 ensures long[i] == short[i] {
      assert long[i] == 1 <==> expanded[i] != subkey[i];
      assert short[i] == 1 <==> expanded[i] != subkey[i];
    }
  }
}
