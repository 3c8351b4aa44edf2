/**
 AES as FIPS 197 defines it: the transformations of sections 5.1 and 5.3 on a state of
 four columns, the key expansion of section 5.2, the straightforward inverse cipher and
 the equivalent inverse cipher of section 5.3.5, and the proofs that relate them.
 */
module AesSpec {
  import opened AesTables
  import opened Gf256

  /** A column of the state, row 0 first; also a word of the key schedule. */
  datatype Column = Column(b0: bv8, b1: bv8, b2: bv8, b3: bv8)

  datatype Block = Block(c0: Column, c1: Column, c2: Column, c3: Column)

  // ---------- transformations ----------

  function AddColumn(a: Column, b: Column): Column {
    Column(Add(a.b0, b.b0), Add(a.b1, b.b1), Add(a.b2, b.b2), Add(a.b3, b.b3))
  }

  function SubColumn(a: Column): Column {
    Column(Sbox(a.b0), Sbox(a.b1), Sbox(a.b2), Sbox(a.b3))
  }

  function InvSubColumn(a: Column): Column {
    Column(InvSbox(a.b0), InvSbox(a.b1), InvSbox(a.b2), InvSbox(a.b3))
  }

  function RotColumn(a: Column): Column {
    Column(a.b1, a.b2, a.b3, a.b0)
  }

  /** One row of a matrix product. */
  function Dot(a: Column, k0: bv8, k1: bv8, k2: bv8, k3: bv8): bv8 {
    Add(Add(Mul(a.b0, k0), Mul(a.b1, k1)), Add(Mul(a.b2, k2), Mul(a.b3, k3)))
  }

  function MixColumn(a: Column): Column {
    Column(Dot(a, 2, 3, 1, 1), Dot(a, 1, 2, 3, 1), Dot(a, 1, 1, 2, 3), Dot(a, 3, 1, 1, 2))
  }

  function InvMixColumn(a: Column): Column {
    Column(Dot(a, 14, 11, 13, 9), Dot(a, 9, 14, 11, 13), Dot(a, 13, 9, 14, 11), Dot(a, 11, 13, 9, 14))
  }

  function AddRoundKey(s: Block, k: Block): Block {
    Block(AddColumn(s.c0, k.c0), AddColumn(s.c1, k.c1), AddColumn(s.c2, k.c2), AddColumn(s.c3, k.c3))
  }

  function SubBytes(s: Block): Block {
    Block(SubColumn(s.c0), SubColumn(s.c1), SubColumn(s.c2), SubColumn(s.c3))
  }

  function InvSubBytes(s: Block): Block {
    Block(InvSubColumn(s.c0), InvSubColumn(s.c1), InvSubColumn(s.c2), InvSubColumn(s.c3))
  }

  /** Row r moves left by r columns. */
  function ShiftRows(s: Block): Block {
    Block(Column(s.c0.b0, s.c1.b1, s.c2.b2, s.c3.b3),
          Column(s.c1.b0, s.c2.b1, s.c3.b2, s.c0.b3),
          Column(s.c2.b0, s.c3.b1, s.c0.b2, s.c1.b3),
          Column(s.c3.b0, s.c0.b1, s.c1.b2, s.c2.b3))
  }

  /** Row r moves right by r columns. */
  function InvShiftRows(s: Block): Block {
    Block(Column(s.c0.b0, s.c3.b1, s.c2.b2, s.c1.b3),
          Column(s.c1.b0, s.c0.b1, s.c3.b2, s.c2.b3),
          Column(s.c2.b0, s.c1.b1, s.c0.b2, s.c3.b3),
          Column(s.c3.b0, s.c2.b1, s.c1.b2, s.c0.b3))
  }

  function MixColumns(s: Block): Block {
    Block(MixColumn(s.c0), MixColumn(s.c1), MixColumn(s.c2), MixColumn(s.c3))
  }

  function InvMixColumns(s: Block): Block {
    Block(InvMixColumn(s.c0), InvMixColumn(s.c1), InvMixColumn(s.c2), InvMixColumn(s.c3))
  }

  // ---------- key expansion ----------

  function PowerOfX(n: nat): bv8 {
    if n == 0 then 1 else XTime(PowerOfX(n - 1))
  }

  function Rcon(n: nat): Column
    requires n > 0
  {
    Column(PowerOfX(n - 1), 0, 0, 0)
  }

  function KeyStep(i: nat, nk: nat, temp: Column): Column
    requires 0 < nk <= i
  {
    if i % nk == 0 then
      (assert i / nk > 0; AddColumn(SubColumn(RotColumn(temp)), Rcon(i / nk)))
    else if nk > 6 && i % nk == 4 then SubColumn(temp)
    else temp
  }

  /** Word `i` of the key schedule of `key`. */
  function ExpandedWord(key: seq<Column>, i: nat): Column
    requires key != []
  {
    if i < |key| then key[i]
    else AddColumn(ExpandedWord(key, i - |key|), KeyStep(i, |key|, ExpandedWord(key, i - 1)))
  }

  function ExpandedKey(key: seq<Column>, n: nat): seq<Column>
    requires key != []
  {
    seq(n, i requires 0 <= i => ExpandedWord(key, i))
  }

  function RoundKey(w: seq<Column>, r: nat): Block
    requires 4 * r + 4 <= |w|
  {
    Block(w[4 * r], w[4 * r + 1], w[4 * r + 2], w[4 * r + 3])
  }

  // ---------- ciphers ----------

  /** The state after `r` full rounds. */
  function Rounds(s: Block, w: seq<Column>, r: nat): Block
    requires 4 * r + 4 <= |w|
  {
    if r == 0 then AddRoundKey(s, RoundKey(w, 0))
    else AddRoundKey(MixColumns(ShiftRows(SubBytes(Rounds(s, w, r - 1)))), RoundKey(w, r))
  }

  /** The cipher of section 5.1. */
  function Cipher(s: Block, w: seq<Column>, nr: nat): Block
    requires 0 < nr && 4 * nr + 4 <= |w|
  {
    AddRoundKey(ShiftRows(SubBytes(Rounds(s, w, nr - 1))), RoundKey(w, nr))
  }

  /** The state of the inverse cipher before its inverse round `r - 1`. */
  function InvRounds(s: Block, w: seq<Column>, nr: nat, r: nat): Block
    requires r <= nr && 4 * nr + 4 <= |w|
    decreases nr - r
  {
    if r == nr then AddRoundKey(s, RoundKey(w, nr))
    else InvMixColumns(AddRoundKey(InvSubBytes(InvShiftRows(InvRounds(s, w, nr, r + 1))), RoundKey(w, r)))
  }

  /** The inverse cipher of section 5.3. */
  function InvCipher(s: Block, w: seq<Column>, nr: nat): Block
    requires 0 < nr && 4 * nr + 4 <= |w|
  {
    AddRoundKey(InvSubBytes(InvShiftRows(InvRounds(s, w, nr, 1))), RoundKey(w, 0))
  }

  function EqInvRounds(s: Block, dw: seq<Column>, nr: nat, r: nat): Block
    requires r <= nr && 4 * nr + 4 <= |dw|
    decreases nr - r
  {
    if r == nr then AddRoundKey(s, RoundKey(dw, nr))
    else AddRoundKey(InvMixColumns(InvShiftRows(InvSubBytes(EqInvRounds(s, dw, nr, r + 1)))), RoundKey(dw, r))
  }

  /** The equivalent inverse cipher of section 5.3.5. */
  function EqInvCipher(s: Block, dw: seq<Column>, nr: nat): Block
    requires 0 < nr && 4 * nr + 4 <= |dw|
  {
    AddRoundKey(InvShiftRows(InvSubBytes(EqInvRounds(s, dw, nr, 1))), RoundKey(dw, 0))
  }

  /** The key schedule it uses: the inner round keys pass through InvMixColumns. */
  function DecryptionKey(w: seq<Column>, nr: nat): (dw: seq<Column>)
    ensures |dw| == |w|
  {
    seq(|w|, i requires 0 <= i < |w| => if 4 <= i < 4 * nr then InvMixColumn(w[i]) else w[i])
  }

  // ---------- each transformation is undone by its inverse ----------

  lemma InvSboxSbox(x: bv8)
    ensures InvSbox(Sbox(x)) == x
  {}

  lemma SboxInvSbox(x: bv8)
    ensures Sbox(InvSbox(x)) == x
  {}

  lemma SubBytesInverts(s: Block)
    ensures InvSubBytes(SubBytes(s)) == s
  {
    hide Sbox, InvSbox;
    SubColumnInverts(s.c0);
    SubColumnInverts(s.c1);
    SubColumnInverts(s.c2);
    SubColumnInverts(s.c3);
  }

  lemma SubColumnInverts(a: Column)
    ensures InvSubColumn(SubColumn(a)) == a
  {
    hide Sbox, InvSbox;
    InvSboxSbox(a.b0);
    InvSboxSbox(a.b1);
    InvSboxSbox(a.b2);
    InvSboxSbox(a.b3);
  }

  lemma AddCancels(a: bv8, b: bv8)
    ensures Add(Add(a, b), b) == a
  {}

  lemma AddRoundKeyInverts(s: Block, k: Block)
    ensures AddRoundKey(AddRoundKey(s, k), k) == s
  {
    AddColumnCancels(s.c0, k.c0);
    AddColumnCancels(s.c1, k.c1);
    AddColumnCancels(s.c2, k.c2);
    AddColumnCancels(s.c3, k.c3);
  }

  lemma AddColumnCancels(a: Column, b: Column)
    ensures AddColumn(AddColumn(a, b), b) == a
  {
    hide Add;
    AddCancels(a.b0, b.b0);
    AddCancels(a.b1, b.b1);
    AddCancels(a.b2, b.b2);
    AddCancels(a.b3, b.b3);
  }

  lemma ShiftRowsInverts(s: Block)
    ensures InvShiftRows(ShiftRows(s)) == s
  {}

  lemma DotAdd(a: Column, b: Column, k0: bv8, k1: bv8, k2: bv8, k3: bv8)
    ensures Dot(AddColumn(a, b), k0, k1, k2, k3) == Add(Dot(a, k0, k1, k2, k3), Dot(b, k0, k1, k2, k3))
  {
    hide Add, Mul;
    MulAdd(a.b0, b.b0, k0);
    MulAdd(a.b1, b.b1, k1);
    MulAdd(a.b2, b.b2, k2);
    MulAdd(a.b3, b.b3, k3);
    AddSwap(Mul(a.b0, k0), Mul(b.b0, k0), Mul(a.b1, k1), Mul(b.b1, k1));
    AddSwap(Mul(a.b2, k2), Mul(b.b2, k2), Mul(a.b3, k3), Mul(b.b3, k3));
    AddSwap(Add(Mul(a.b0, k0), Mul(a.b1, k1)), Add(Mul(b.b0, k0), Mul(b.b1, k1)),
            Add(Mul(a.b2, k2), Mul(a.b3, k3)), Add(Mul(b.b2, k2), Mul(b.b3, k3)));
  }

  lemma MixColumnAdd(a: Column, b: Column)
    ensures MixColumn(AddColumn(a, b)) == AddColumn(MixColumn(a), MixColumn(b))
  {
    hide Dot, Add;
    DotAdd(a, b, 2, 3, 1, 1);
    DotAdd(a, b, 1, 2, 3, 1);
    DotAdd(a, b, 1, 1, 2, 3);
    DotAdd(a, b, 3, 1, 1, 2);
  }

  lemma InvMixColumnAdd(a: Column, b: Column)
    ensures InvMixColumn(AddColumn(a, b)) == AddColumn(InvMixColumn(a), InvMixColumn(b))
  {
    hide Dot, Add;
    DotAdd(a, b, 14, 11, 13, 9);
    DotAdd(a, b, 9, 14, 11, 13);
    DotAdd(a, b, 13, 9, 14, 11);
    DotAdd(a, b, 11, 13, 9, 14);
  }

  /** A column multiplied by a field element. */
  function ScaleColumn(x: bv8, a: Column): Column {
    Column(Mul(x, a.b0), Mul(x, a.b1), Mul(x, a.b2), Mul(x, a.b3))
  }

  lemma DotScale(x: bv8, a: Column, k0: bv8, k1: bv8, k2: bv8, k3: bv8)
    ensures Dot(ScaleColumn(x, a), k0, k1, k2, k3) == Mul(x, Dot(a, k0, k1, k2, k3))
  {
    hide Add, Mul;
    MulAssoc(x, a.b0, k0);
    MulAssoc(x, a.b1, k1);
    MulAssoc(x, a.b2, k2);
    MulAssoc(x, a.b3, k3);
    MulAddRight(x, Mul(a.b0, k0), Mul(a.b1, k1));
    MulAddRight(x, Mul(a.b2, k2), Mul(a.b3, k3));
    MulAddRight(x, Add(Mul(a.b0, k0), Mul(a.b1, k1)), Add(Mul(a.b2, k2), Mul(a.b3, k3)));
  }

  lemma MixColumnScale(x: bv8, a: Column)
    ensures MixColumn(ScaleColumn(x, a)) == ScaleColumn(x, MixColumn(a))
    ensures InvMixColumn(ScaleColumn(x, a)) == ScaleColumn(x, InvMixColumn(a))
  {
    hide Dot, Mul;
    DotScale(x, a, 2, 3, 1, 1);
    DotScale(x, a, 1, 2, 3, 1);
    DotScale(x, a, 1, 1, 2, 3);
    DotScale(x, a, 3, 1, 1, 2);
    DotScale(x, a, 14, 11, 13, 9);
    DotScale(x, a, 9, 14, 11, 13);
    DotScale(x, a, 13, 9, 14, 11);
    DotScale(x, a, 11, 13, 9, 14);
  }

  function Unit(i: nat): Column
    requires i < 4
  {
    if i == 0 then Column(1, 0, 0, 0)
    else if i == 1 then Column(0, 1, 0, 0)
    else if i == 2 then Column(0, 0, 1, 0)
    else Column(0, 0, 0, 1)
  }

  lemma SmallProducts()
    ensures Mul(0, 1) == 0 && Mul(0, 2) == 0 && Mul(0, 3) == 0 && Mul(0, 9) == 0 && Mul(0, 11) == 0 && Mul(0, 13) == 0 && Mul(0, 14) == 0
    ensures Mul(1, 1) == 1 && Mul(1, 2) == 2 && Mul(1, 3) == 3 && Mul(1, 9) == 9 && Mul(1, 11) == 11 && Mul(1, 13) == 13 && Mul(1, 14) == 14
    ensures Mul(2, 9) == 18 && Mul(2, 11) == 22 && Mul(2, 13) == 26 && Mul(2, 14) == 28
    ensures Mul(3, 9) == 27 && Mul(3, 11) == 29 && Mul(3, 13) == 23 && Mul(3, 14) == 18
    ensures Mul(9, 1) == 9 && Mul(9, 2) == 18 && Mul(9, 3) == 27
    ensures Mul(11, 1) == 11 && Mul(11, 2) == 22 && Mul(11, 3) == 29
    ensures Mul(13, 1) == 13 && Mul(13, 2) == 26 && Mul(13, 3) == 23
    ensures Mul(14, 1) == 14 && Mul(14, 2) == 28 && Mul(14, 3) == 18
  {
    hide Mul;
    MulByConstants(0);
    MulByConstants(1);
    MulByConstants(2);
    MulByConstants(3);
    MulByConstants(9);
    MulByConstants(11);
    MulByConstants(13);
    MulByConstants(14);
  }

  /** The two matrices are inverse to each other: their products fix the unit columns. */
  lemma MatricesAreInverse(i: nat)
    requires i < 4
    ensures InvMixColumn(MixColumn(Unit(i))) == Unit(i)
    ensures MixColumn(InvMixColumn(Unit(i))) == Unit(i)
  {
    hide Mul;
    SmallProducts();
    if i == 0 {
      assert MixColumn(Unit(i)) == Column(2, 1, 1, 3) && InvMixColumn(Unit(i)) == Column(14, 9, 13, 11);
    } else if i == 1 {
      assert MixColumn(Unit(i)) == Column(3, 2, 1, 1) && InvMixColumn(Unit(i)) == Column(11, 14, 9, 13);
    } else if i == 2 {
      assert MixColumn(Unit(i)) == Column(1, 3, 2, 1) && InvMixColumn(Unit(i)) == Column(13, 11, 14, 9);
    } else {
      assert MixColumn(Unit(i)) == Column(1, 1, 3, 2) && InvMixColumn(Unit(i)) == Column(9, 13, 11, 14);
    }
  }

  /** A column is the sum of its entries times the unit columns. */
  lemma SplitColumn(a: Column)
    ensures a == AddColumn(AddColumn(ScaleColumn(a.b0, Unit(0)), ScaleColumn(a.b1, Unit(1))),
                           AddColumn(ScaleColumn(a.b2, Unit(2)), ScaleColumn(a.b3, Unit(3))))
  {
    hide Mul, Add;
    MulZero(a.b0); MulZero(a.b1); MulZero(a.b2); MulZero(a.b3); MulZero(0);
    MulByOne(a.b0); MulByOne(a.b1); MulByOne(a.b2); MulByOne(a.b3);
  }

  lemma InvMixColumnInverts(a: Column)
    ensures InvMixColumn(MixColumn(a)) == a
    ensures MixColumn(InvMixColumn(a)) == a
  {
    hide *;
    SplitColumn(a);
    var x, y := AddColumn(ScaleColumn(a.b0, Unit(0)), ScaleColumn(a.b1, Unit(1))), AddColumn(ScaleColumn(a.b2, Unit(2)), ScaleColumn(a.b3, Unit(3)));
    MixPair(a.b0, 0, a.b1, 1);
    MixPair(a.b2, 2, a.b3, 3);
    MixColumnAdd(x, y);
    InvMixColumnAdd(MixColumn(x), MixColumn(y));
    InvMixColumnAdd(x, y);
    MixColumnAdd(InvMixColumn(x), InvMixColumn(y));
  }

  lemma MixPair(p: bv8, i: nat, q: bv8, j: nat)
    requires i < 4 && j < 4
    ensures var x := AddColumn(ScaleColumn(p, Unit(i)), ScaleColumn(q, Unit(j)));
            InvMixColumn(MixColumn(x)) == x && MixColumn(InvMixColumn(x)) == x
  {
    hide *;
    var u, v := ScaleColumn(p, Unit(i)), ScaleColumn(q, Unit(j));
    MixColumnAdd(u, v);
    InvMixColumnAdd(MixColumn(u), MixColumn(v));
    InvMixColumnAdd(u, v);
    MixColumnAdd(InvMixColumn(u), InvMixColumn(v));
    MatricesAreInverse(i);
    MatricesAreInverse(j);
    MixColumnScale(p, Unit(i));
    MixColumnScale(p, MixColumn(Unit(i)));
    MixColumnScale(p, InvMixColumn(Unit(i)));
    MixColumnScale(q, Unit(j));
    MixColumnScale(q, MixColumn(Unit(j)));
    MixColumnScale(q, InvMixColumn(Unit(j)));
  }

  lemma MixColumnsInverts(s: Block)
    ensures InvMixColumns(MixColumns(s)) == s
  {
    hide MixColumn, InvMixColumn;
    InvMixColumnInverts(s.c0);
    InvMixColumnInverts(s.c1);
    InvMixColumnInverts(s.c2);
    InvMixColumnInverts(s.c3);
  }

  // ---------- decryption undoes encryption ----------

  lemma {:induction false} InvRoundsUndo(s: Block, w: seq<Column>, nr: nat, r: nat)
    requires 1 <= r <= nr && 4 * nr + 4 <= |w|
    ensures InvRounds(Cipher(s, w, nr), w, nr, r) == ShiftRows(SubBytes(Rounds(s, w, r - 1)))
    decreases nr - r
  {
    hide AddRoundKey, SubBytes, InvSubBytes, ShiftRows, InvShiftRows, MixColumns, InvMixColumns, RoundKey;
    if r == nr {
      AddRoundKeyInverts(ShiftRows(SubBytes(Rounds(s, w, nr - 1))), RoundKey(w, nr));
    } else {
      InvRoundsUndo(s, w, nr, r + 1);
      var t := ShiftRows(SubBytes(Rounds(s, w, r - 1)));
      assert Rounds(s, w, r) == AddRoundKey(MixColumns(t), RoundKey(w, r));
      ShiftRowsInverts(SubBytes(Rounds(s, w, r)));
      SubBytesInverts(Rounds(s, w, r));
      AddRoundKeyInverts(MixColumns(t), RoundKey(w, r));
      MixColumnsInverts(t);
    }
  }

  /** The inverse cipher undoes the cipher, for every key schedule and number of rounds. */
  lemma InvCipherInverts(s: Block, w: seq<Column>, nr: nat)
    requires 0 < nr && 4 * nr + 4 <= |w|
    ensures InvCipher(Cipher(s, w, nr), w, nr) == s
  {
    hide AddRoundKey, SubBytes, InvSubBytes, ShiftRows, InvShiftRows, RoundKey, Cipher;
    InvRoundsUndo(s, w, nr, 1);
    ShiftRowsInverts(SubBytes(Rounds(s, w, 0)));
    SubBytesInverts(Rounds(s, w, 0));
    AddRoundKeyInverts(s, RoundKey(w, 0));
  }

  // ---------- encryption undoes decryption ----------

  lemma SubColumnUndoes(a: Column)
    ensures SubColumn(InvSubColumn(a)) == a
  {
    SboxInvSbox(a.b0);
    SboxInvSbox(a.b1);
    SboxInvSbox(a.b2);
    SboxInvSbox(a.b3);
    hide Sbox, InvSbox;
  }

  lemma SubBytesUndoes(s: Block)
    ensures SubBytes(InvSubBytes(s)) == s
  {
    hide SubColumn, InvSubColumn;
    SubColumnUndoes(s.c0);
    SubColumnUndoes(s.c1);
    SubColumnUndoes(s.c2);
    SubColumnUndoes(s.c3);
  }

  lemma ShiftRowsUndoes(s: Block)
    ensures ShiftRows(InvShiftRows(s)) == s
  {}

  lemma MixColumnsUndoes(s: Block)
    ensures MixColumns(InvMixColumns(s)) == s
  {
    hide MixColumn, InvMixColumn;
    InvMixColumnInverts(s.c0);
    InvMixColumnInverts(s.c1);
    InvMixColumnInverts(s.c2);
    InvMixColumnInverts(s.c3);
  }

  lemma {:induction false} RoundsUndo(s: Block, w: seq<Column>, nr: nat, r: nat)
    requires 1 <= r <= nr && 4 * nr + 4 <= |w|
    ensures ShiftRows(SubBytes(Rounds(InvCipher(s, w, nr), w, r - 1))) == InvRounds(s, w, nr, r)
  {
    hide AddRoundKey, SubBytes, InvSubBytes, ShiftRows, InvShiftRows, MixColumns, InvMixColumns, RoundKey;
    var t := InvRounds(s, w, nr, r);
    var u := InvSubBytes(InvShiftRows(t));
    if r == 1 {
      AddRoundKeyInverts(u, RoundKey(w, 0));
    } else {
      RoundsUndo(s, w, nr, r - 1);
      assert InvRounds(s, w, nr, r - 1) == InvMixColumns(AddRoundKey(u, RoundKey(w, r - 1)));
      MixColumnsUndoes(AddRoundKey(u, RoundKey(w, r - 1)));
      AddRoundKeyInverts(u, RoundKey(w, r - 1));
    }
    hide InvCipher;
    SubBytesUndoes(InvShiftRows(t));
    ShiftRowsUndoes(t);
  }

  /** The cipher undoes the inverse cipher: with `InvCipherInverts`, both are bijections on blocks. */
  lemma CipherInverts(s: Block, w: seq<Column>, nr: nat)
    requires 0 < nr && 4 * nr + 4 <= |w|
    ensures Cipher(InvCipher(s, w, nr), w, nr) == s
  {
    hide AddRoundKey, SubBytes, ShiftRows, RoundKey, InvCipher;
    RoundsUndo(s, w, nr, nr);
    AddRoundKeyInverts(s, RoundKey(w, nr));
  }

  // ---------- the equivalent inverse cipher ----------

  lemma InvSubAndShiftCommute(s: Block)
    ensures InvShiftRows(InvSubBytes(s)) == InvSubBytes(InvShiftRows(s))
  {
    hide InvSbox;
  }

  lemma InvMixColumnsAdd(s: Block, k: Block)
    ensures InvMixColumns(AddRoundKey(s, k)) == AddRoundKey(InvMixColumns(s), InvMixColumns(k))
  {
    hide InvMixColumn, AddColumn;
    InvMixColumnAdd(s.c0, k.c0);
    InvMixColumnAdd(s.c1, k.c1);
    InvMixColumnAdd(s.c2, k.c2);
    InvMixColumnAdd(s.c3, k.c3);
  }

  lemma DecryptionRoundKey(w: seq<Column>, nr: nat, r: nat)
    requires r <= nr && 4 * nr + 4 <= |w|
    ensures RoundKey(DecryptionKey(w, nr), r) == if 0 < r < nr then InvMixColumns(RoundKey(w, r)) else RoundKey(w, r)
  {
    hide InvMixColumn;
  }

  lemma {:induction false} EqInvRoundsEqual(s: Block, w: seq<Column>, nr: nat, r: nat)
    requires 1 <= r <= nr && 4 * nr + 4 <= |w|
    ensures EqInvRounds(s, DecryptionKey(w, nr), nr, r) == InvRounds(s, w, nr, r)
    decreases nr - r
  {
    hide AddRoundKey, InvSubBytes, InvShiftRows, InvMixColumns, RoundKey, DecryptionKey;
    DecryptionRoundKey(w, nr, r);
    if r < nr {
      EqInvRoundsEqual(s, w, nr, r + 1);
      var t := InvRounds(s, w, nr, r + 1);
      InvSubAndShiftCommute(t);
      InvMixColumnsAdd(InvSubBytes(InvShiftRows(t)), RoundKey(w, r));
    }
  }

  /** The equivalent inverse cipher with the transformed key schedule is the inverse cipher. */
  lemma EqInvCipherIsInvCipher(s: Block, w: seq<Column>, nr: nat)
    requires 0 < nr && 4 * nr + 4 <= |w|
    ensures EqInvCipher(s, DecryptionKey(w, nr), nr) == InvCipher(s, w, nr)
  {
    hide AddRoundKey, InvSubBytes, InvShiftRows, RoundKey, DecryptionKey;
    EqInvRoundsEqual(s, w, nr, 1);
    DecryptionRoundKey(w, nr, 0);
    InvSubAndShiftCommute(InvRounds(s, w, nr, 1));
  }

  /** What `ln_aes_decrypt` relies on: its rounds undo those of `ln_aes_encrypt`. */
  lemma EqInvCipherInverts(s: Block, w: seq<Column>, nr: nat)
    requires 0 < nr && 4 * nr + 4 <= |w|
    ensures EqInvCipher(Cipher(s, w, nr), DecryptionKey(w, nr), nr) == s
  {
    hide *;
    EqInvCipherIsInvCipher(Cipher(s, w, nr), w, nr);
    InvCipherInverts(s, w, nr);
  }
}
