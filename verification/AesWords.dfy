/**
 The 32-bit word operations of ln_aes.c (row 0 of a column in the low byte), and what
 they do to the column that a word holds.
 */
module AesWords {
  import opened AesTables
  import opened Gf256
  import opened AesSpec
  import opened Words

  function Unpack(w: bv32): Column {
    Column(ByteAt(w, 0), ByteAt(w, 1), ByteAt(w, 2), ByteAt(w, 3))
  }

  function Columns(ws: seq<bv32>): (cs: seq<Column>)
    ensures |cs| == |ws|
  {
    seq(|ws|, i requires 0 <= i < |ws| => Unpack(ws[i]))
  }

  function BlockOfWords(ws: seq<bv32>): Block
    requires |ws| == 4
  {
    Block(Unpack(ws[0]), Unpack(ws[1]), Unpack(ws[2]), Unpack(ws[3]))
  }

  function ColumnOfBytes(bs: seq<bv8>, i: nat): Column
    requires 4 * i + 4 <= |bs|
  {
    Column(bs[4 * i], bs[4 * i + 1], bs[4 * i + 2], bs[4 * i + 3])
  }

  function BlockOfBytes(bs: seq<bv8>): Block
    requires |bs| == 16
  {
    Block(ColumnOfBytes(bs, 0), ColumnOfBytes(bs, 1), ColumnOfBytes(bs, 2), ColumnOfBytes(bs, 3))
  }

  function KeyColumns(bs: seq<bv8>): (cs: seq<Column>)
    ensures |cs| == |bs| / 4
  {
    seq(|bs| / 4, i requires 0 <= i < |bs| / 4 => ColumnOfBytes(bs, i))
  }

  // ---------- the macros ----------

  function RotByte(w: bv32): bv32 {
    (w >> 8) | ((w & 0xFF) << 24)
  }

  function RotRByte(w: bv32): bv32 {
    (w << 8) | ((w >> 24) & 0xFF)
  }

  function SubWord(w: bv32): bv32 {
    Place(Sbox(ByteAt(w, 0)), 0) | Place(Sbox(ByteAt(w, 1)), 1) | Place(Sbox(ByteAt(w, 2)), 2) | Place(Sbox(ByteAt(w, 3)), 3)
  }

  function InvSubWord(w: bv32): bv32 {
    Place(InvSbox(ByteAt(w, 0)), 0) | Place(InvSbox(ByteAt(w, 1)), 1) | Place(InvSbox(ByteAt(w, 2)), 2) | Place(InvSbox(ByteAt(w, 3)), 3)
  }

  function XorWord(a: bv32, b: bv32): bv32 {
    a ^ b
  }

  /** Four words rotated into place and added, in the nesting of the source. */
  function Nest(p: bv32, q: bv32, r: bv32, t: bv32): bv32 {
    XorWord(p, RotRByte(XorWord(q, RotRByte(XorWord(r, RotRByte(t))))))
  }

  /** One column of an encryption round. */
  function DLookup(w0: bv32, w1: bv32, w2: bv32, w3: bv32): bv32 {
    Nest(DTable(ByteAt(w0, 0)), DTable(ByteAt(w1, 1)), DTable(ByteAt(w2, 2)), DTable(ByteAt(w3, 3)))
  }

  function ILookup(w0: bv32, w1: bv32, w2: bv32, w3: bv32): bv32 {
    Nest(ITable(ByteAt(w0, 0)), ITable(ByteAt(w1, 1)), ITable(ByteAt(w2, 2)), ITable(ByteAt(w3, 3)))
  }

  /** One column gathered for the last round. */
  function Gather(w0: bv32, w1: bv32, w2: bv32, w3: bv32): bv32 {
    (((w0 & 0xFF) | (w1 & 0xFF00)) | (w2 & 0xFF_0000)) | (w3 & 0xFF00_0000)
  }

  // ---------- what they do to columns ----------

  lemma UnpackXor(a: bv32, b: bv32)
    ensures Unpack(XorWord(a, b)) == AddColumn(Unpack(a), Unpack(b))
  {
    hide ByteAt, XorWord, Add;
    ByteAtXor(a, b, 0);
    ByteAtXor(a, b, 1);
    ByteAtXor(a, b, 2);
    ByteAtXor(a, b, 3);
  }

  lemma ByteAtXor(a: bv32, b: bv32, k: nat)
    requires k < 4
    ensures ByteAt(XorWord(a, b), k) == Add(ByteAt(a, k), ByteAt(b, k))
  {
    assert ByteAt(a ^ b, k) == ByteAt(a, k) ^ ByteAt(b, k) by {
      if k == 0 {} else if k == 1 {} else if k == 2 {} else {}
    }
    hide ByteAt;
  }

  lemma UnpackRot(a: bv32)
    ensures Unpack(RotByte(a)) == RotColumn(Unpack(a))
    ensures Unpack(RotRByte(a)) == Column(ByteAt(a, 3), ByteAt(a, 0), ByteAt(a, 1), ByteAt(a, 2))
  {}

  lemma UnpackPlaces(b0: bv8, b1: bv8, b2: bv8, b3: bv8)
    ensures Unpack(Place(b0, 0) | Place(b1, 1) | Place(b2, 2) | Place(b3, 3)) == Column(b0, b1, b2, b3)
  {}

  lemma UnpackSub(a: bv32)
    ensures Unpack(SubWord(a)) == SubColumn(Unpack(a))
    ensures Unpack(InvSubWord(a)) == InvSubColumn(Unpack(a))
  {
    hide Sbox, InvSbox, ByteAt, Place;
    UnpackPlaces(Sbox(ByteAt(a, 0)), Sbox(ByteAt(a, 1)), Sbox(ByteAt(a, 2)), Sbox(ByteAt(a, 3)));
    UnpackPlaces(InvSbox(ByteAt(a, 0)), InvSbox(ByteAt(a, 1)), InvSbox(ByteAt(a, 2)), InvSbox(ByteAt(a, 3)));
  }

  lemma UnpackGather(w0: bv32, w1: bv32, w2: bv32, w3: bv32)
    ensures Unpack(Gather(w0, w1, w2, w3)) == Column(ByteAt(w0, 0), ByteAt(w1, 1), ByteAt(w2, 2), ByteAt(w3, 3))
  {}

  lemma UnpackByte(b: bv8)
    ensures Unpack(b as bv32) == Column(b, 0, 0, 0)
  {}

  /** Every entry of g_dtbl is a MixColumns column of its S-box entry. */
  lemma DTableBytes(x: bv8)
    ensures DTable(x) == Place(XTime(Sbox(x)), 0) | Place(Sbox(x), 1) | Place(Sbox(x), 2) | Place(Add(Sbox(x), XTime(Sbox(x))), 3)
  {}

  lemma DTableColumn(x: bv8)
    ensures Unpack(DTable(x)) == Column(Mul(Sbox(x), 2), Sbox(x), Sbox(x), Mul(Sbox(x), 3))
  {
    hide *;
    var s := Sbox(x);
    DTableBytes(x);
    UnpackPlaces(XTime(s), s, s, Add(s, XTime(s)));
    MulByConstants(s);
  }

  function Times9(s: bv8): bv8 {
    Add(s, XTime(XTime(XTime(s))))
  }

  function Times11(s: bv8): bv8 {
    Add(s, Add(XTime(s), XTime(XTime(XTime(s)))))
  }

  function Times13(s: bv8): bv8 {
    Add(s, Add(XTime(XTime(s)), XTime(XTime(XTime(s)))))
  }

  function Times14(s: bv8): bv8 {
    Add(XTime(s), Add(XTime(XTime(s)), XTime(XTime(XTime(s)))))
  }

  /** Every entry of g_itbl is an InvMixColumns column of its inverse S-box entry. */
  lemma ITableBytes(x: bv8)
    ensures ITable(x) == Place(Times14(InvSbox(x)), 0) | Place(Times9(InvSbox(x)), 1) | Place(Times13(InvSbox(x)), 2) | Place(Times11(InvSbox(x)), 3)
  {}

  lemma ITableColumn(x: bv8)
    ensures Unpack(ITable(x)) == Column(Mul(InvSbox(x), 14), Mul(InvSbox(x), 9), Mul(InvSbox(x), 13), Mul(InvSbox(x), 11))
  {
    hide ITable, InvSbox, Unpack, Place, Mul, Add, XTime;
    var s := InvSbox(x);
    ITableBytes(x);
    UnpackPlaces(Times14(s), Times9(s), Times13(s), Times11(s));
    MulByConstants(s);
  }

  lemma UnpackNest(p: bv32, q: bv32, r: bv32, t: bv32)
    ensures Unpack(Nest(p, q, r, t)) ==
            Column(Add(Add(ByteAt(p, 0), ByteAt(q, 3)), Add(ByteAt(r, 2), ByteAt(t, 1))),
                   Add(Add(ByteAt(p, 1), ByteAt(q, 0)), Add(ByteAt(r, 3), ByteAt(t, 2))),
                   Add(Add(ByteAt(p, 2), ByteAt(q, 1)), Add(ByteAt(r, 0), ByteAt(t, 3))),
                   Add(Add(ByteAt(p, 3), ByteAt(q, 2)), Add(ByteAt(r, 1), ByteAt(t, 0))))
  {
    hide ByteAt, Add, RotRByte, XorWord;
    var u := XorWord(r, RotRByte(t));
    var v := XorWord(q, RotRByte(u));
    UnpackXor(r, RotRByte(t));
    UnpackXor(q, RotRByte(u));
    UnpackXor(p, RotRByte(v));
    UnpackRot(t);
    UnpackRot(u);
    UnpackRot(v);
    AddAssoc(ByteAt(p, 0), ByteAt(q, 3), Add(ByteAt(r, 2), ByteAt(t, 1)));
    AddAssoc(ByteAt(p, 1), ByteAt(q, 0), Add(ByteAt(r, 3), ByteAt(t, 2)));
    AddAssoc(ByteAt(p, 2), ByteAt(q, 1), Add(ByteAt(r, 0), ByteAt(t, 3)));
    AddAssoc(ByteAt(p, 3), ByteAt(q, 2), Add(ByteAt(r, 1), ByteAt(t, 0)));
  }

  /** Four lookups in g_dtbl substitute and mix one column. */
  lemma DLookupColumn(w0: bv32, w1: bv32, w2: bv32, w3: bv32)
    ensures Unpack(DLookup(w0, w1, w2, w3)) == MixColumn(SubColumn(Column(ByteAt(w0, 0), ByteAt(w1, 1), ByteAt(w2, 2), ByteAt(w3, 3))))
  {
    hide Sbox, DTable, ByteAt, Nest, Mul, Add;
    var x0, x1, x2, x3 := ByteAt(w0, 0), ByteAt(w1, 1), ByteAt(w2, 2), ByteAt(w3, 3);
    UnpackNest(DTable(x0), DTable(x1), DTable(x2), DTable(x3));
    DTableColumn(x0);
    DTableColumn(x1);
    DTableColumn(x2);
    DTableColumn(x3);
    MulByOne(Sbox(x0));
    MulByOne(Sbox(x1));
    MulByOne(Sbox(x2));
    MulByOne(Sbox(x3));
  }

  /** Four lookups in g_itbl substitute back and mix back one column. */
  lemma ILookupColumn(w0: bv32, w1: bv32, w2: bv32, w3: bv32)
    ensures Unpack(ILookup(w0, w1, w2, w3)) == InvMixColumn(InvSubColumn(Column(ByteAt(w0, 0), ByteAt(w1, 1), ByteAt(w2, 2), ByteAt(w3, 3))))
  {
    hide InvSbox, ITable, ByteAt, Nest, Mul, Add;
    var x0, x1, x2, x3 := ByteAt(w0, 0), ByteAt(w1, 1), ByteAt(w2, 2), ByteAt(w3, 3);
    UnpackNest(ITable(x0), ITable(x1), ITable(x2), ITable(x3));
    ITableColumn(x0);
    ITableColumn(x1);
    ITableColumn(x2);
    ITableColumn(x3);
  }

  // ---------- rounds on four words ----------

  /** The index permutations `g_idxe` and `g_idxd`. */
  function IdxE(r: nat, j: nat): (k: nat)
    requires r < 4 && j < 4
    ensures k < 4
  {
    [[0, 1, 2, 3], [1, 2, 3, 0], [2, 3, 0, 1], [3, 0, 1, 2]][r][j]
  }

  function IdxD(r: nat, j: nat): (k: nat)
    requires r < 4 && j < 4
    ensures k < 4
  {
    [[0, 1, 2, 3], [3, 0, 1, 2], [2, 3, 0, 1], [1, 2, 3, 0]][r][j]
  }

  /** A table-driven encryption round is SubBytes, ShiftRows and MixColumns. */
  lemma EncryptionRound(w: seq<bv32>, t: seq<bv32>)
    requires |w| == |t| == 4
    requires forall j :: 0 <= j < 4 ==> t[j] == DLookup(w[j], w[IdxE(1, j)], w[IdxE(2, j)], w[IdxE(3, j)])
    ensures BlockOfWords(t) == MixColumns(ShiftRows(SubBytes(BlockOfWords(w))))
  {
    hide DLookup, ByteAt, Sbox, MixColumn;
    DLookupColumn(w[0], w[1], w[2], w[3]);
    DLookupColumn(w[1], w[2], w[3], w[0]);
    DLookupColumn(w[2], w[3], w[0], w[1]);
    DLookupColumn(w[3], w[0], w[1], w[2]);
  }

  lemma DecryptionRound(w: seq<bv32>, t: seq<bv32>)
    requires |w| == |t| == 4
    requires forall j :: 0 <= j < 4 ==> t[j] == ILookup(w[j], w[IdxD(1, j)], w[IdxD(2, j)], w[IdxD(3, j)])
    ensures BlockOfWords(t) == InvMixColumns(InvShiftRows(InvSubBytes(BlockOfWords(w))))
  {
    hide ILookup, ByteAt, InvSbox, InvMixColumn;
    ILookupColumn(w[0], w[3], w[2], w[1]);
    ILookupColumn(w[1], w[0], w[3], w[2]);
    ILookupColumn(w[2], w[1], w[0], w[3]);
    ILookupColumn(w[3], w[2], w[1], w[0]);
  }

  lemma LastEncryptionRound(w: seq<bv32>, t: seq<bv32>)
    requires |w| == |t| == 4
    requires forall j :: 0 <= j < 4 ==> t[j] == SubWord(Gather(w[j], w[IdxE(1, j)], w[IdxE(2, j)], w[IdxE(3, j)]))
    ensures BlockOfWords(t) == ShiftRows(SubBytes(BlockOfWords(w)))
  {
    hide Gather, SubWord, ByteAt, Sbox;
    UnpackSub(Gather(w[0], w[1], w[2], w[3]));
    UnpackSub(Gather(w[1], w[2], w[3], w[0]));
    UnpackSub(Gather(w[2], w[3], w[0], w[1]));
    UnpackSub(Gather(w[3], w[0], w[1], w[2]));
    UnpackGather(w[0], w[1], w[2], w[3]);
    UnpackGather(w[1], w[2], w[3], w[0]);
    UnpackGather(w[2], w[3], w[0], w[1]);
    UnpackGather(w[3], w[0], w[1], w[2]);
  }

  lemma LastDecryptionRound(w: seq<bv32>, t: seq<bv32>)
    requires |w| == |t| == 4
    requires forall j :: 0 <= j < 4 ==> t[j] == InvSubWord(Gather(w[j], w[IdxD(1, j)], w[IdxD(2, j)], w[IdxD(3, j)]))
    ensures BlockOfWords(t) == InvShiftRows(InvSubBytes(BlockOfWords(w)))
  {
    hide Gather, InvSubWord, ByteAt, InvSbox;
    UnpackSub(Gather(w[0], w[3], w[2], w[1]));
    UnpackSub(Gather(w[1], w[0], w[3], w[2]));
    UnpackSub(Gather(w[2], w[1], w[0], w[3]));
    UnpackSub(Gather(w[3], w[2], w[1], w[0]));
    UnpackGather(w[0], w[3], w[2], w[1]);
    UnpackGather(w[1], w[0], w[3], w[2]);
    UnpackGather(w[2], w[1], w[0], w[3]);
    UnpackGather(w[3], w[2], w[1], w[0]);
  }
}
