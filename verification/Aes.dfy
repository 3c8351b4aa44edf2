/**
 The functions of ln_aes.c on their context: key set-up, encryption and decryption of one
 block, each proved to compute the corresponding algorithm of FIPS 197.
 */
module Aes {
  import opened AesTables
  import opened Gf256
  import opened AesSpec
  import opened AesWords
  import opened Words

  /** Key words for a requested key size; other sizes are truncated to a valid one. */
  function KeyWords(keysize: nat): nat {
    if keysize >= 32 then 8 else if keysize >= 24 then 6 else 4
  }

  function NumRounds(keysize: nat): nat {
    if keysize >= 32 then 14 else if keysize >= 24 then 12 else 10
  }

  // ---------- key additions ----------

  method KeyAddition8To32(txt: array<bv8>, from: nat, key: array<bv32>, at: nat, out: array<bv32>)
    requires from + 16 <= txt.Length && at + 4 <= key.Length && out.Length == 4 && out != key
    modifies out
    ensures BlockOfWords(out[..]) == AddRoundKey(BlockOfBytes(txt[from..from + 16]), BlockOfWords(key[at..at + 4]))
  {
    hide ByteAt, Place, Add, XorWord, Assemble;
    ghost var bytes := txt[from..from + 16];
    for i := 0 to 4
      invariant forall m :: 0 <= m < i ==> Unpack(out[m]) == AddColumn(Unpack(key[at + m]), ColumnOfBytes(bytes, m))
      invariant txt[from..from + 16] == bytes
    {
      var val: bv32 := 0;
      ghost var bs := bytes[4 * i..4 * i + 4];
      AssembleNext(bs, 0);
      for j := 0 to 4
        invariant val == Assemble(bs[..j])
        modifies {}
      {
        AssembleNext(bs, j);
        val := val | Place(txt[from + 4 * i + j], j);
      }
      assert bs[..4] == bs;
      UnpackAssemble(bs);
      out[i] := XorWord(key[at + i], val);
      UnpackXor(key[at + i], val);
    }
    AddColumnsComm(out[..], key[at..at + 4], bytes);
  }

  /** Bytes placed one after the other into a word that starts at 0. */
  function Assemble(bs: seq<bv8>): bv32
    requires |bs| <= 4
  {
    if bs == [] then 0 else Assemble(bs[..|bs| - 1]) | Place(bs[|bs| - 1], |bs| - 1)
  }

  lemma AssembleNext(bs: seq<bv8>, n: nat)
    requires n < 4 && n < |bs|
    ensures Assemble(bs[..n + 1]) == Assemble(bs[..n]) | Place(bs[n], n)
    ensures Assemble(bs[..0]) == 0
  {
    hide Place;
    assert bs[..n + 1][..n] == bs[..n];
  }

  lemma UnpackAssemble(bs: seq<bv8>)
    requires |bs| == 4
    ensures Unpack(Assemble(bs)) == Column(bs[0], bs[1], bs[2], bs[3])
  {
    hide Place, Unpack;
    assert bs[..4] == bs;
    AssembleNext(bs, 0);
    AssembleNext(bs, 1);
    AssembleNext(bs, 2);
    AssembleNext(bs, 3);
    OrZero(Place(bs[0], 0));
    UnpackPlaces(bs[0], bs[1], bs[2], bs[3]);
    hide Assemble;
  }

  lemma OrZero(w: bv32)
    ensures 0 | w == w
  {}

  lemma AddColumnsComm(out: seq<bv32>, key: seq<bv32>, txt: seq<bv8>)
    requires |out| == 4 && |key| == 4 && |txt| == 16
    requires forall m :: 0 <= m < 4 ==> Unpack(out[m]) == AddColumn(Unpack(key[m]), ColumnOfBytes(txt, m))
    ensures BlockOfWords(out) == AddRoundKey(BlockOfBytes(txt), BlockOfWords(key))
  {
    hide Unpack, ColumnOfBytes, AddColumn;
    AddColumnComm(Unpack(key[0]), ColumnOfBytes(txt, 0));
    AddColumnComm(Unpack(key[1]), ColumnOfBytes(txt, 1));
    AddColumnComm(Unpack(key[2]), ColumnOfBytes(txt, 2));
    AddColumnComm(Unpack(key[3]), ColumnOfBytes(txt, 3));
  }

  lemma AddColumnComm(a: Column, b: Column)
    ensures AddColumn(a, b) == AddColumn(b, a)
  {}

  method KeyAddition32(txt: array<bv32>, key: array<bv32>, at: nat, out: array<bv32>)
    requires txt.Length == 4 && at + 4 <= key.Length && out.Length == 4 && out != key && out != txt
    modifies out
    ensures BlockOfWords(out[..]) == AddRoundKey(BlockOfWords(txt[..]), BlockOfWords(key[at..at + 4]))
  {
    for i := 0 to 4
      invariant forall m :: 0 <= m < i ==> Unpack(out[m]) == AddColumn(Unpack(txt[m]), Unpack(key[at + m]))
    {
      out[i] := XorWord(key[at + i], txt[i]);
      UnpackXor(key[at + i], txt[i]);
      AddColumnComm(Unpack(key[at + i]), Unpack(txt[i]));
    }
    hide Unpack, AddColumn;
  }

  method KeyAddition32To8(txt: array<bv32>, key: array<bv32>, at: nat, out: array<bv8>, to: nat)
    requires txt.Length == 4 && at + 4 <= key.Length && to + 16 <= out.Length
    modifies out
    ensures BlockOfBytes(out[to..to + 16]) == AddRoundKey(BlockOfWords(txt[..]), BlockOfWords(key[at..at + 4]))
    ensures out[..to] == old(out[..to]) && out[to + 16..] == old(out[to + 16..])
  {
    hide ByteAt, XorWord, Add;
    ghost var was := out[..];
    for i := 0 to 4
      invariant forall p :: 0 <= p < 4 * i ==> out[to + p] == ByteAt(XorWord(txt[p / 4], key[at + p / 4]), p % 4)
      invariant out[..to] == was[..to] && out[to + 16..] == was[to + 16..]
    {
      var val := XorWord(txt[i], key[at + i]);
      for j := 0 to 4
        invariant forall p :: 0 <= p < 4 * i + j ==> out[to + p] == ByteAt(XorWord(txt[p / 4], key[at + p / 4]), p % 4)
        invariant out[..to] == was[..to] && out[to + 16..] == was[to + 16..]
      {
        out[to + (4 * i + j)] := ByteAt(val, j);
      }
    }
    WordBytes(txt[..], key[at..at + 4], out[to..to + 16]);
  }

  lemma WordBytes(txt: seq<bv32>, key: seq<bv32>, out: seq<bv8>)
    requires |txt| == 4 && |key| == 4 && |out| == 16
    requires forall p :: 0 <= p < 16 ==> out[p] == ByteAt(XorWord(txt[p / 4], key[p / 4]), p % 4)
    ensures BlockOfBytes(out) == AddRoundKey(BlockOfWords(txt), BlockOfWords(key))
  {
    hide ByteAt, XorWord, Add;
    WordBytesAt(txt, key, out, 0);
    WordBytesAt(txt, key, out, 1);
    WordBytesAt(txt, key, out, 2);
    WordBytesAt(txt, key, out, 3);
    hide AddColumn, Unpack, ColumnOfBytes;
  }

  lemma WordBytesAt(txt: seq<bv32>, key: seq<bv32>, out: seq<bv8>, i: nat)
    requires |txt| == 4 && |key| == 4 && |out| == 16 && i < 4
    requires forall p :: 0 <= p < 16 ==> out[p] == ByteAt(XorWord(txt[p / 4], key[p / 4]), p % 4)
    ensures ColumnOfBytes(out, i) == AddColumn(Unpack(txt[i]), Unpack(key[i]))
  {
    hide ByteAt, XorWord, Add;
    UnpackXor(txt[i], key[i]);
    assert out[4 * i + 0] == ByteAt(XorWord(txt[i], key[i]), 0);
    assert out[4 * i + 1] == ByteAt(XorWord(txt[i], key[i]), 1);
    assert out[4 * i + 2] == ByteAt(XorWord(txt[i], key[i]), 2);
    assert out[4 * i + 3] == ByteAt(XorWord(txt[i], key[i]), 3);
  }

  /** `inv_mix_column` on the four words from index `at` on. */
  method InvMixColumnWords(a: array<bv32>, at: nat, b: array<bv32>)
    requires at + 4 <= a.Length && at + 4 <= b.Length && a != b
    modifies b
    ensures forall m :: at <= m < at + 4 ==> Unpack(b[m]) == InvMixColumn(Unpack(a[m]))
    ensures forall m :: 0 <= m < b.Length && !(at <= m < at + 4) ==> b[m] == old(b[m])
  {
    hide ByteAt, Place, MixedByte, InvMixColumn, Unpack, Assemble;
    var c := new bv8[4, 4];
    for j := 0 to 4
      invariant forall m, k :: 0 <= m < j && 0 <= k < 4 ==> c[m, k] == MixedByte(a[at + m], k)
      invariant b[..] == old(b[..])
    {
      for i := 0 to 4
        invariant forall m, k :: 0 <= m < j && 0 <= k < 4 ==> c[m, k] == MixedByte(a[at + m], k)
        invariant forall k :: 0 <= k < i ==> c[j, k] == MixedByte(a[at + j], k)
        invariant b[..] == old(b[..])
      {
        c[j, i] := MixedByte(a[at + j], i);
      }
    }
    for i := 0 to 4
      invariant forall m :: at <= m < at + i ==> Unpack(b[m]) == InvMixColumn(Unpack(a[m]))
      invariant forall m :: 0 <= m < b.Length && !(at <= m < at + i) ==> b[m] == old(b[m])
      modifies b
    {
      PackWord(c, i, b, at + i);
      MixedBytes(a[at + i]);
    }
  }

  method PackWord(c: array2<bv8>, i: nat, b: array<bv32>, p: nat)
    requires c.Length0 == c.Length1 == 4 && i < 4 && p < b.Length
    modifies b
    ensures Unpack(b[p]) == Column(c[i, 0], c[i, 1], c[i, 2], c[i, 3])
    ensures forall m :: 0 <= m < b.Length && m != p ==> b[m] == old(b[m])
  {
    hide Place, Unpack, Assemble;
    b[p] := 0;
    ghost var bs := [c[i, 0], c[i, 1], c[i, 2], c[i, 3]];
    AssembleNext(bs, 0);
    for j := 0 to 4
      invariant b[p] == Assemble(bs[..j])
      invariant forall m :: 0 <= m < b.Length && m != p ==> b[m] == old(b[m])
    {
      AssembleNext(bs, j);
      b[p] := b[p] | Place(c[i, j], j);
    }
    assert bs[..4] == bs;
    UnpackAssemble(bs);
  }

  /** Byte `i` of a word passed through the inverse column mix, as the source writes it. */
  function MixedByte(w: bv32, i: nat): bv8
    requires i < 4
  {
    Add(Add(LogMul(0xE, ByteAt(w, i)), LogMul(0xB, ByteAt(w, (i + 1) % 4))),
        Add(LogMul(0xD, ByteAt(w, (i + 2) % 4)), LogMul(0x9, ByteAt(w, (i + 3) % 4))))
  }

  lemma MixedBytes(w: bv32)
    ensures Column(MixedByte(w, 0), MixedByte(w, 1), MixedByte(w, 2), MixedByte(w, 3)) == InvMixColumn(Unpack(w))
  {
    hide Add, Mul, LogMul, ByteAt;
    var x0, x1, x2, x3 := ByteAt(w, 0), ByteAt(w, 1), ByteAt(w, 2), ByteAt(w, 3);
    MulByMixers(x0);
    MulByMixers(x1);
    MulByMixers(x2);
    MulByMixers(x3);
    AddRotate(Mul(x1, 14), Mul(x2, 11), Mul(x3, 13), Mul(x0, 9));
    AddRotate(Mul(x2, 14), Mul(x3, 11), Mul(x0, 13), Mul(x1, 9));
    AddRotate(Mul(x3, 14), Mul(x0, 11), Mul(x1, 13), Mul(x2, 9));
  }

  lemma MulByMixers(x: bv8)
    ensures LogMul(0xE, x) == Mul(x, 14) && LogMul(0xB, x) == Mul(x, 11) && LogMul(0xD, x) == Mul(x, 13) && LogMul(0x9, x) == Mul(x, 9)
  {
    hide Mul, LogTable, AlogTable, SumMod255;
    LogMulIsMul(x, 14);
    LogMulIsMul(x, 11);
    LogMulIsMul(x, 13);
    LogMulIsMul(x, 9);
    SumComm(LogTable(x), LogTable(14));
    SumComm(LogTable(x), LogTable(11));
    SumComm(LogTable(x), LogTable(13));
    SumComm(LogTable(x), LogTable(9));
  }

  lemma SumComm(i: bv8, j: bv8)
    ensures SumMod255(i, j) == SumMod255(j, i)
  {}

  /** The rotations of a sum of four terms. */
  lemma AddRotate(a: bv8, b: bv8, c: bv8, d: bv8)
    ensures Add(Add(a, b), Add(c, d)) == Add(Add(d, a), Add(b, c))
    ensures Add(Add(a, b), Add(c, d)) == Add(Add(c, d), Add(a, b))
    ensures Add(Add(a, b), Add(c, d)) == Add(Add(b, c), Add(d, a))
  {
    hide *;
    AddComm(Add(a, b), Add(c, d));
    AddSwap(a, b, c, d);
    AddSwap(a, b, d, c);
    AddComm(d, c); AddComm(d, a); AddComm(c, b); AddComm(Add(a, d), Add(b, c)); AddComm(b, c); AddComm(a, d);
  }

  // ---------- the context ----------

  class AesContext {
    const keys: array<bv32>
    const ikeys: array<bv32>
    var nrounds: nat

    ghost predicate Valid()
      reads this, keys, ikeys
    {
      && keys.Length == 60 && ikeys.Length == 60 && keys != ikeys
      && nrounds in {10, 12, 14}
      && DecryptionWords(keys[..], ikeys[..], nrounds)
    }

    /** The encryption key schedule. */
    ghost function Schedule(): (w: seq<Column>)
      reads this, keys, ikeys
      requires Valid()
      ensures |w| == 60
    {
      Columns(keys[..])
    }

    constructor ()
      ensures fresh(keys) && fresh(ikeys) && keys != ikeys && keys.Length == 60 && ikeys.Length == 60
    {
      keys := new bv32[60];
      ikeys := new bv32[60];
      nrounds := 0;
    }

    /**
     `ln_aes_setup`: any key size is accepted, and its schedule is the key expansion of the
     first 16, 24 or 32 key bytes.
     */
    method Setup(keysize: nat, key: array<bv8>)
      requires key.Length >= 4 * KeyWords(keysize)
      requires keys.Length == 60 && ikeys.Length == 60 && keys != ikeys
      modifies this, keys, ikeys
      ensures Valid() && nrounds == NumRounds(keysize)
      ensures Schedule()[..4 * nrounds + 4] == ExpandedKey(old(KeyColumns(key[..4 * KeyWords(keysize)])), 4 * nrounds + 4)
    {
      hide Unpack, InvMixColumn, ExpandedWord;
      var nk, nr := KeyWords(keysize), NumRounds(keysize);
      nrounds := nr;
      ghost var k := KeyColumns(key[..4 * nk]);
      LoadKey(key, nk, keys);
      ExpandKey(k, nk, 4 * (nr + 1), keys);
      InverseKeys(keys, ikeys, nr);
      ScheduleDone(k, keys[..], ikeys[..], nr);
    }

    /**
     `ln_aes_encrypt` of the 16 bytes at `from` to the 16 bytes at `to`. The two ranges may lie in
     the same array, and overlap.
     */
    method Encrypt(plaintext: array<bv8>, from: nat, ciphertext: array<bv8>, to: nat)
      requires Valid() && from + 16 <= plaintext.Length && to + 16 <= ciphertext.Length
      modifies ciphertext
      ensures BlockOfBytes(ciphertext[to..to + 16]) == Cipher(old(BlockOfBytes(plaintext[from..from + 16])), Schedule(), nrounds)
      ensures ciphertext[..to] == old(ciphertext[..to]) && ciphertext[to + 16..] == old(ciphertext[to + 16..])
    {
      hide BlockOfBytes, BlockOfWords, AddRoundKey, MixColumns, ShiftRows, SubBytes, RoundKey, Columns, DecryptionWords;
      ghost var s, ks := BlockOfBytes(plaintext[from..from + 16]), keys[..];
      ghost var w := Columns(ks);
      var wtxt := new bv32[4];
      var t := new bv32[4];
      KeyAddition8To32(plaintext, from, keys, 0, wtxt);
      RoundKeyWords(ks, 0);
      var r := 1;
      while r < nrounds
        invariant 1 <= r <= nrounds
        invariant BlockOfWords(wtxt[..]) == Rounds(s, w, r - 1)
        modifies wtxt, t
      {
        EncryptionLookups(wtxt, t);
        KeyAddition32(t, keys, r * 4, wtxt);
        RoundKeyWords(ks, r);
        r := r + 1;
      }
      LastEncryptionLookups(wtxt, t);
      KeyAddition32To8(t, keys, 4 * nrounds, ciphertext, to);
      RoundKeyWords(ks, nrounds);
    }

    /** `ln_aes_decrypt`: its rounds are the equivalent inverse cipher. The ranges may overlap. */
    method Decrypt(ciphertext: array<bv8>, from: nat, plaintext: array<bv8>, to: nat)
      requires Valid() && from + 16 <= ciphertext.Length && to + 16 <= plaintext.Length
      modifies plaintext
      ensures BlockOfBytes(plaintext[to..to + 16]) == InvCipher(old(BlockOfBytes(ciphertext[from..from + 16])), Schedule(), nrounds)
      ensures plaintext[..to] == old(plaintext[..to]) && plaintext[to + 16..] == old(plaintext[to + 16..])
    {
      hide BlockOfBytes, BlockOfWords, AddRoundKey, InvMixColumns, InvShiftRows, InvSubBytes, RoundKey, Columns, DecryptionWords, DecryptionKey;
      ghost var s, ks, iks := BlockOfBytes(ciphertext[from..from + 16]), keys[..], ikeys[..];
      ghost var dw := DecryptionKey(Columns(ks), nrounds);
      var wtxt := new bv32[4];
      var t := new bv32[4];
      KeyAddition8To32(ciphertext, from, ikeys, 4 * nrounds, wtxt);
      InverseKeyWords(ks, iks, nrounds, nrounds);
      var r := nrounds - 1;
      while r > 0
        invariant 0 <= r < nrounds
        invariant BlockOfWords(wtxt[..]) == EqInvRounds(s, dw, nrounds, r + 1)
        modifies wtxt, t
      {
        DecryptionLookups(wtxt, t);
        KeyAddition32(t, ikeys, r * 4, wtxt);
        InverseKeyWords(ks, iks, nrounds, r);
        r := r - 1;
      }
      LastDecryptionLookups(wtxt, t);
      KeyAddition32To8(t, ikeys, 0, plaintext, to);
      InverseKeyWords(ks, iks, nrounds, 0);
      EqInvCipherIsInvCipher(s, Columns(ks), nrounds);
    }
  }

  // ---------- key expansion ----------

  /** The inner round keys pass through InvMixColumns, the first and the last do not. */
  method InverseKeys(keys: array<bv32>, ikeys: array<bv32>, nr: nat)
    requires 1 <= nr && 4 * nr + 4 <= keys.Length == ikeys.Length && keys != ikeys
    modifies ikeys
    ensures ikeys[..4] == keys[..4] && ikeys[4 * nr..4 * nr + 4] == keys[4 * nr..4 * nr + 4]
    ensures forall i :: 4 <= i < 4 * nr ==> Unpack(ikeys[i]) == InvMixColumn(Unpack(keys[i]))
  {
    hide Unpack, InvMixColumn;
    var lastkey := 4 * (nr + 1);
    for i := 0 to 4
      invariant ikeys[..i] == keys[..i] && ikeys[lastkey - 4..lastkey - 4 + i] == keys[lastkey - 4..lastkey - 4 + i]
    {
      ikeys[i] := keys[i];
      ikeys[lastkey - 4 + i] := keys[lastkey - 4 + i];
    }
    var i := 4;
    while i < lastkey - 4
      invariant 4 <= i <= lastkey - 4 && i % 4 == 0
      invariant ikeys[..4] == keys[..4] && ikeys[lastkey - 4..lastkey] == keys[lastkey - 4..lastkey]
      invariant forall m :: 4 <= m < i ==> Unpack(ikeys[m]) == InvMixColumn(Unpack(keys[m]))
    {
      InvMixColumnWords(keys, i, ikeys);
      i := i + 4;
    }
  }

  lemma ScheduleDone(k: seq<Column>, keys: seq<bv32>, ikeys: seq<bv32>, nr: nat)
    requires k != [] && |keys| == |ikeys| && 1 <= nr && 4 * nr + 4 <= |keys|
    requires forall i :: 0 <= i < 4 * nr + 4 ==> Unpack(keys[i]) == ExpandedWord(k, i)
    requires ikeys[..4] == keys[..4] && ikeys[4 * nr..4 * nr + 4] == keys[4 * nr..4 * nr + 4]
    requires forall i :: 4 <= i < 4 * nr ==> Unpack(ikeys[i]) == InvMixColumn(Unpack(keys[i]))
    ensures DecryptionWords(keys, ikeys, nr)
    ensures Columns(keys)[..4 * nr + 4] == ExpandedKey(k, 4 * nr + 4)
  {
    hide Unpack, InvMixColumn, ExpandedWord;
    forall i | 0 <= i < 4 * nr + 4
      ensures Unpack(ikeys[i]) == DecryptionKey(Columns(keys), nr)[i]
    {
      if i < 4 {
        assert ikeys[..4][i] == keys[..4][i];
      } else if i >= 4 * nr {
        assert ikeys[4 * nr..4 * nr + 4][i - 4 * nr] == keys[4 * nr..4 * nr + 4][i - 4 * nr];
      }
    }
  }

  method LoadKey(key: array<bv8>, nk: nat, keys: array<bv32>)
    requires key.Length >= 4 * nk && keys.Length >= nk
    modifies keys
    ensures forall i :: 0 <= i < nk ==> Unpack(keys[i]) == ColumnOfBytes(old(key[..4 * nk]), i)
  {
    hide Unpack;
    ghost var bs := key[..4 * nk];
    for i := 0 to nk
      invariant key[..4 * nk] == bs
      invariant forall m :: 0 <= m < i ==> Unpack(keys[m]) == ColumnOfBytes(bs, m)
    {
      keys[i] := SumBytes(key[i * 4], key[i * 4 + 1], key[i * 4 + 2], key[i * 4 + 3]);
      UnpackSum(key[i * 4], key[i * 4 + 1], key[i * 4 + 2], key[i * 4 + 3]);
    }
  }

  function SumBytes(b0: bv8, b1: bv8, b2: bv8, b3: bv8): bv32 {
    Place(b0, 0) + Place(b1, 1) + Place(b2, 2) + Place(b3, 3)
  }

  lemma UnpackSum(b0: bv8, b1: bv8, b2: bv8, b3: bv8)
    ensures Unpack(SumBytes(b0, b1, b2, b3)) == Column(b0, b1, b2, b3)
  {}

  method ExpandKey(ghost k: seq<Column>, nk: nat, lastkey: nat, keys: array<bv32>)
    requires |k| == nk && nk in {4, 6, 8} && lastkey <= keys.Length
    requires nk <= keys.Length && forall i :: 0 <= i < nk ==> Unpack(keys[i]) == k[i]
    modifies keys
    ensures forall i :: 0 <= i < lastkey ==> Unpack(keys[i]) == ExpandedWord(k, i)
  {
    hide Unpack, SubWord, RotByte, XorWord, AddColumn, KeyStep, RconWord, NextRcon, ExpandedWord;
    forall m | 0 <= m < nk ensures k[m] == ExpandedWord(k, m) { ExpandedWordStep(k, m); }
    var rcon: bv32 := 1;
    var i := nk;
    RconIndex(i, nk);
    FirstRcon();
    while i < lastkey
      invariant nk <= i
      invariant rcon == RconWord((i - 1) / nk)
      invariant forall m :: 0 <= m < i && m < lastkey ==> Unpack(keys[m]) == ExpandedWord(k, m)
    {
      var temp := keys[i - 1];
      RconIndex(i, nk);
      KeyStepWord(i, nk, temp, rcon);
      if i % nk == 0 {
        temp := XorWord(SubWord(RotByte(temp)), rcon);
        RconNext((i - 1) / nk);
        rcon := NextRcon(rcon);
      } else if nk > 6 && i % nk == 4 {
        temp := SubWord(temp);
      }
      UnpackXor(keys[i - nk], temp);
      ExpandedWordStep(k, i);
      keys[i] := XorWord(keys[i - nk], temp);
      i := i + 1;
    }
  }

  lemma ExpandedWordStep(k: seq<Column>, i: nat)
    requires k != []
    ensures ExpandedWord(k, i) ==
            if i < |k| then k[i] else AddColumn(ExpandedWord(k, i - |k|), KeyStep(i, |k|, ExpandedWord(k, i - 1)))
  {}

  /** The round constant as the low byte of a word. */
  function RconWord(n: nat): bv32 { PowerOfX(n) as bv32 }

  /** The update of the round constant. */
  function NextRcon(rcon: bv32): bv32 { XTime((rcon & 0xFF) as bv8) as bv32 }

  lemma FirstRcon()
    ensures RconWord(0) == 1
  {}

  lemma RconNext(n: nat)
    ensures NextRcon(RconWord(n)) == RconWord(n + 1)
  {
    hide XTime;
    RconByte(PowerOfX(n));
  }

  lemma RconByte(b: bv8)
    ensures ((b as bv32) & 0xFF) as bv8 == b
  {}

  lemma KeyStepWord(i: nat, nk: nat, temp: bv32, rcon: bv32)
    requires nk in {4, 6, 8} && nk <= i
    requires rcon == RconWord((i - 1) / nk)
    ensures KeyStep(i, nk, Unpack(temp)) ==
            if i % nk == 0 then Unpack(XorWord(SubWord(RotByte(temp)), rcon))
            else if nk > 6 && i % nk == 4 then Unpack(SubWord(temp))
            else Unpack(temp)
  {
    hide Unpack, SubWord, RotByte, XorWord, AddColumn, SubColumn, RotColumn, PowerOfX;
    RconIndex(i, nk);
    if i % nk == 0 {
      UnpackRot(temp);
      UnpackSub(RotByte(temp));
      UnpackXor(SubWord(RotByte(temp)), rcon);
      UnpackByte(PowerOfX((i - 1) / nk));
    } else {
      UnpackSub(temp);
    }
  }

  lemma RconIndex(i: nat, nk: nat)
    requires nk in {4, 6, 8} && nk <= i
    ensures i == nk ==> (i - 1) / nk == 0
    ensures i % nk == 0 ==> i / nk == (i - 1) / nk + 1
    ensures i % nk != 0 ==> i / nk == (i - 1) / nk
  {
    if nk == 4 {} else if nk == 6 {} else {}
  }

  // ---------- the column loops of one round ----------

  method EncryptionLookups(w: array<bv32>, t: array<bv32>)
    requires w.Length == t.Length == 4 && w != t
    modifies t
    ensures BlockOfWords(t[..]) == MixColumns(ShiftRows(SubBytes(BlockOfWords(w[..]))))
  {
    hide DLookup, BlockOfWords, MixColumns, ShiftRows, SubBytes;
    for j := 0 to 4
      invariant forall m :: 0 <= m < j ==> t[m] == DLookup(w[m], w[IdxE(1, m)], w[IdxE(2, m)], w[IdxE(3, m)])
    {
      t[j] := DLookup(w[j], w[IdxE(1, j)], w[IdxE(2, j)], w[IdxE(3, j)]);
    }
    EncryptionRound(w[..], t[..]);
  }

  method DecryptionLookups(w: array<bv32>, t: array<bv32>)
    requires w.Length == t.Length == 4 && w != t
    modifies t
    ensures BlockOfWords(t[..]) == InvMixColumns(InvShiftRows(InvSubBytes(BlockOfWords(w[..]))))
  {
    hide ILookup, BlockOfWords, InvMixColumns, InvShiftRows, InvSubBytes;
    for j := 0 to 4
      invariant forall m :: 0 <= m < j ==> t[m] == ILookup(w[m], w[IdxD(1, m)], w[IdxD(2, m)], w[IdxD(3, m)])
    {
      t[j] := ILookup(w[j], w[IdxD(1, j)], w[IdxD(2, j)], w[IdxD(3, j)]);
    }
    DecryptionRound(w[..], t[..]);
  }

  method LastEncryptionLookups(w: array<bv32>, t: array<bv32>)
    requires w.Length == t.Length == 4 && w != t
    modifies t
    ensures BlockOfWords(t[..]) == ShiftRows(SubBytes(BlockOfWords(w[..])))
  {
    hide Gather, SubWord, BlockOfWords, ShiftRows, SubBytes;
    for j := 0 to 4
      invariant forall m :: 0 <= m < j ==> t[m] == Gather(w[m], w[IdxE(1, m)], w[IdxE(2, m)], w[IdxE(3, m)])
    {
      t[j] := Gather(w[j], w[IdxE(1, j)], w[IdxE(2, j)], w[IdxE(3, j)]);
    }
    ghost var gathered := t[..];
    for j := 0 to 4
      invariant forall m :: 0 <= m < j ==> t[m] == SubWord(gathered[m])
      invariant forall m :: j <= m < 4 ==> t[m] == gathered[m]
    {
      t[j] := SubWord(t[j]);
    }
    LastEncryptionRound(w[..], t[..]);
  }

  method LastDecryptionLookups(w: array<bv32>, t: array<bv32>)
    requires w.Length == t.Length == 4 && w != t
    modifies t
    ensures BlockOfWords(t[..]) == InvShiftRows(InvSubBytes(BlockOfWords(w[..])))
  {
    hide Gather, InvSubWord, BlockOfWords, InvShiftRows, InvSubBytes;
    for j := 0 to 4
      invariant forall m :: 0 <= m < j ==> t[m] == Gather(w[m], w[IdxD(1, m)], w[IdxD(2, m)], w[IdxD(3, m)])
    {
      t[j] := Gather(w[j], w[IdxD(1, j)], w[IdxD(2, j)], w[IdxD(3, j)]);
    }
    ghost var gathered := t[..];
    for j := 0 to 4
      invariant forall m :: 0 <= m < j ==> t[m] == InvSubWord(gathered[m])
      invariant forall m :: j <= m < 4 ==> t[m] == gathered[m]
    {
      t[j] := InvSubWord(t[j]);
    }
    LastDecryptionRound(w[..], t[..]);
  }

  /** Four consecutive words are a round key. */
  lemma RoundKeyWords(ws: seq<bv32>, r: nat)
    requires 4 * r + 4 <= |ws|
    ensures BlockOfWords(ws[4 * r..4 * r + 4]) == RoundKey(Columns(ws), r)
  {
    hide Unpack;
  }

  /** The inner decryption keys are the encryption keys through InvMixColumns. */
  ghost predicate DecryptionWords(keys: seq<bv32>, ikeys: seq<bv32>, nr: nat)
    requires |keys| == |ikeys| && 4 * nr + 4 <= |keys|
  {
    forall i :: 0 <= i < 4 * nr + 4 ==> Unpack(ikeys[i]) == DecryptionKey(Columns(keys), nr)[i]
  }

  lemma InverseKeyWords(keys: seq<bv32>, ikeys: seq<bv32>, nr: nat, r: nat)
    requires |keys| == |ikeys| && r <= nr && 4 * nr + 4 <= |keys|
    requires DecryptionWords(keys, ikeys, nr)
    ensures BlockOfWords(ikeys[4 * r..4 * r + 4]) == RoundKey(DecryptionKey(Columns(keys), nr), r)
  {
    hide Unpack, DecryptionKey, Columns;
  }

  /** Encryption followed by decryption under one schedule gives back the bytes of the block. */
  lemma BytesRoundTrip(p: seq<bv8>, c: seq<bv8>, q: seq<bv8>, w: seq<Column>, nr: nat)
    requires |p| == |c| == |q| == 16 && 0 < nr && 4 * nr + 4 <= |w|
    requires BlockOfBytes(c) == Cipher(BlockOfBytes(p), w, nr)
    requires BlockOfBytes(q) == InvCipher(BlockOfBytes(c), w, nr)
    ensures q == p
  {
    hide Cipher, InvCipher;
    InvCipherInverts(BlockOfBytes(p), w, nr);
  }

  /** A block through a fresh context and back: the same bytes, for every key size, key and block. */
  method RoundTrip(keysize: nat, key: array<bv8>, p: array<bv8>) returns (c: array<bv8>, q: array<bv8>)
    requires key.Length >= 4 * KeyWords(keysize) && p.Length >= 16
    ensures c.Length == q.Length == 16 && q[..] == p[..16]
    ensures exists w: seq<Column> :: |w| == 60 && UnderKey(w, keysize, key[..4 * KeyWords(keysize)])
                                     && BlockOfBytes(c[..]) == Cipher(BlockOfBytes(p[..16]), w, NumRounds(keysize))
  {
    hide BlockOfBytes, Cipher, InvCipher, ExpandedKey, KeyColumns;
    var ctx := new AesContext();
    ctx.Setup(keysize, key);
    c := new bv8[16];
    ctx.Encrypt(p, 0, c, 0);
    q := new bv8[16];
    ctx.Decrypt(c, 0, q, 0);
    ghost var w := ctx.Schedule();
    assert c[0..16] == c[..] && q[0..16] == q[..] && p[0..16] == p[..16];
    BytesRoundTrip(p[..16], c[..], q[..], w, ctx.nrounds);
    assert UnderKey(w, keysize, key[..4 * KeyWords(keysize)]);
  }

  /** `w` begins with the expansion of the key. */
  ghost predicate UnderKey(w: seq<Column>, keysize: nat, key: seq<bv8>)
    requires |w| == 60 && |key| == 4 * KeyWords(keysize)
  {
    w[..4 * NumRounds(keysize) + 4] == ExpandedKey(KeyColumns(key), 4 * NumRounds(keysize) + 4)
  }
}
