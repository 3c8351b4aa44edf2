/** Machine words: their size, their bytes, and exclusive or. */
module Words {
  const WORD: nat := 0x1_0000_0000

  type Byte = b: nat | b < 256

  function XorByte(a: bv8, b: bv8): bv8 { a ^ b }

  /** Byte `k` of a word, the lowest first. */
  function ByteAt(w: bv32, k: nat): bv8
    requires k < 4
  {
    if k == 0 then (w & 0xFF) as bv8
    else if k == 1 then ((w >> 8) & 0xFF) as bv8
    else if k == 2 then ((w >> 16) & 0xFF) as bv8
    else ((w >> 24) & 0xFF) as bv8
  }

  /** A byte shifted to position `k`. */
  function Place(b: bv8, k: nat): bv32
    requires k < 4
  {
    if k == 0 then b as bv32
    else if k == 1 then b as bv32 << 8
    else if k == 2 then b as bv32 << 16
    else b as bv32 << 24
  }

  // ---------- 16-bit words ----------

  function Xor16(a: bv16, b: bv16): bv16 { a ^ b }

  function LowByte(x: bv16): bv8 { (x & 0xFF) as bv8 }

  lemma Xor16Laws(a: bv16, b: bv16, c: bv16)
    ensures Xor16(a, b) == Xor16(b, a)
    ensures Xor16(Xor16(a, b), c) == Xor16(a, Xor16(b, c))
  {}

  lemma Xor16Cancels(a: bv16, b: bv16)
    ensures Xor16(a, Xor16(a, b)) == b
    ensures Xor16(a, a) == 0 && Xor16(a, 0) == a
  {}

  lemma Xor16Zero(a: bv16, b: bv16)
    ensures Xor16(a, b) == 0 <==> a == b
  {}

  lemma Xor16Injective(a: bv16, b: bv16, c: bv16)
    requires Xor16(a, c) == Xor16(b, c)
    ensures a == b
  {
    hide Xor16;
    Xor16Laws(a, c, 0);
    Xor16Laws(b, c, 0);
    Xor16Cancels(c, a);
    Xor16Cancels(c, b);
  }
}
