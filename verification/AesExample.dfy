/**
 The examples of FIPS 197 against this model of the standard: the key expansions of appendix A and
 the cipher of appendix B, word by word and round by round, on literal bytes.
 */
module AesExample {
  import opened AesTables
  import opened Gf256
  import opened AesSpec
  import opened AesWords
  import opened Aes

  const KEY: seq<Column> := [
    Column(0x2b, 0x7e, 0x15, 0x16),
    Column(0x28, 0xae, 0xd2, 0xa6),
    Column(0xab, 0xf7, 0x15, 0x88),
    Column(0x09, 0xcf, 0x4f, 0x3c)]

  /** The round constants of section 5.2. */
  lemma RoundConstants()
    ensures PowerOfX(0) == 0x01 && PowerOfX(1) == 0x02 && PowerOfX(2) == 0x04 && PowerOfX(3) == 0x08 && PowerOfX(4) == 0x10
    ensures PowerOfX(5) == 0x20 && PowerOfX(6) == 0x40 && PowerOfX(7) == 0x80 && PowerOfX(8) == 0x1b && PowerOfX(9) == 0x36
  {}

  // ---------- appendix A.1 ----------

  lemma Words0()
    ensures ExpandedWord(KEY, 0) == Column(0x2b, 0x7e, 0x15, 0x16)
    ensures ExpandedWord(KEY, 1) == Column(0x28, 0xae, 0xd2, 0xa6)
    ensures ExpandedWord(KEY, 2) == Column(0xab, 0xf7, 0x15, 0x88)
    ensures ExpandedWord(KEY, 3) == Column(0x09, 0xcf, 0x4f, 0x3c)
  {}

  lemma Words1()
    ensures ExpandedWord(KEY, 4) == Column(0xa0, 0xfa, 0xfe, 0x17)
    ensures ExpandedWord(KEY, 5) == Column(0x88, 0x54, 0x2c, 0xb1)
    ensures ExpandedWord(KEY, 6) == Column(0x23, 0xa3, 0x39, 0x39)
    ensures ExpandedWord(KEY, 7) == Column(0x2a, 0x6c, 0x76, 0x05)
  {
    Words0();
    RoundConstants();
    hide PowerOfX;
  }

  lemma Words2()
    ensures ExpandedWord(KEY, 8) == Column(0xf2, 0xc2, 0x95, 0xf2)
    ensures ExpandedWord(KEY, 9) == Column(0x7a, 0x96, 0xb9, 0x43)
    ensures ExpandedWord(KEY, 10) == Column(0x59, 0x35, 0x80, 0x7a)
    ensures ExpandedWord(KEY, 11) == Column(0x73, 0x59, 0xf6, 0x7f)
  {
    Words1();
    RoundConstants();
    hide PowerOfX;
  }

  lemma Words3()
    ensures ExpandedWord(KEY, 12) == Column(0x3d, 0x80, 0x47, 0x7d)
    ensures ExpandedWord(KEY, 13) == Column(0x47, 0x16, 0xfe, 0x3e)
    ensures ExpandedWord(KEY, 14) == Column(0x1e, 0x23, 0x7e, 0x44)
    ensures ExpandedWord(KEY, 15) == Column(0x6d, 0x7a, 0x88, 0x3b)
  {
    Words2();
    RoundConstants();
    hide PowerOfX;
  }

  lemma Words4()
    ensures ExpandedWord(KEY, 16) == Column(0xef, 0x44, 0xa5, 0x41)
    ensures ExpandedWord(KEY, 17) == Column(0xa8, 0x52, 0x5b, 0x7f)
    ensures ExpandedWord(KEY, 18) == Column(0xb6, 0x71, 0x25, 0x3b)
    ensures ExpandedWord(KEY, 19) == Column(0xdb, 0x0b, 0xad, 0x00)
  {
    Words3();
    RoundConstants();
    hide PowerOfX;
  }

  lemma Words5()
    ensures ExpandedWord(KEY, 20) == Column(0xd4, 0xd1, 0xc6, 0xf8)
    ensures ExpandedWord(KEY, 21) == Column(0x7c, 0x83, 0x9d, 0x87)
    ensures ExpandedWord(KEY, 22) == Column(0xca, 0xf2, 0xb8, 0xbc)
    ensures ExpandedWord(KEY, 23) == Column(0x11, 0xf9, 0x15, 0xbc)
  {
    Words4();
    RoundConstants();
    hide PowerOfX;
  }

  lemma Words6()
    ensures ExpandedWord(KEY, 24) == Column(0x6d, 0x88, 0xa3, 0x7a)
    ensures ExpandedWord(KEY, 25) == Column(0x11, 0x0b, 0x3e, 0xfd)
    ensures ExpandedWord(KEY, 26) == Column(0xdb, 0xf9, 0x86, 0x41)
    ensures ExpandedWord(KEY, 27) == Column(0xca, 0x00, 0x93, 0xfd)
  {
    Words5();
    RoundConstants();
    hide PowerOfX;
  }

  lemma Words7()
    ensures ExpandedWord(KEY, 28) == Column(0x4e, 0x54, 0xf7, 0x0e)
    ensures ExpandedWord(KEY, 29) == Column(0x5f, 0x5f, 0xc9, 0xf3)
    ensures ExpandedWord(KEY, 30) == Column(0x84, 0xa6, 0x4f, 0xb2)
    ensures ExpandedWord(KEY, 31) == Column(0x4e, 0xa6, 0xdc, 0x4f)
  {
    Words6();
    RoundConstants();
    hide PowerOfX;
  }

  lemma Words8()
    ensures ExpandedWord(KEY, 32) == Column(0xea, 0xd2, 0x73, 0x21)
    ensures ExpandedWord(KEY, 33) == Column(0xb5, 0x8d, 0xba, 0xd2)
    ensures ExpandedWord(KEY, 34) == Column(0x31, 0x2b, 0xf5, 0x60)
    ensures ExpandedWord(KEY, 35) == Column(0x7f, 0x8d, 0x29, 0x2f)
  {
    Words7();
    RoundConstants();
    hide PowerOfX;
  }

  lemma Words9()
    ensures ExpandedWord(KEY, 36) == Column(0xac, 0x77, 0x66, 0xf3)
    ensures ExpandedWord(KEY, 37) == Column(0x19, 0xfa, 0xdc, 0x21)
    ensures ExpandedWord(KEY, 38) == Column(0x28, 0xd1, 0x29, 0x41)
    ensures ExpandedWord(KEY, 39) == Column(0x57, 0x5c, 0x00, 0x6e)
  {
    Words8();
    RoundConstants();
    hide PowerOfX;
  }

  lemma Words10()
    ensures ExpandedWord(KEY, 40) == Column(0xd0, 0x14, 0xf9, 0xa8)
    ensures ExpandedWord(KEY, 41) == Column(0xc9, 0xee, 0x25, 0x89)
    ensures ExpandedWord(KEY, 42) == Column(0xe1, 0x3f, 0x0c, 0xc8)
    ensures ExpandedWord(KEY, 43) == Column(0xb6, 0x63, 0x0c, 0xa6)
  {
    Words9();
    RoundConstants();
    hide PowerOfX;
  }

  // ---------- appendices A.2 and A.3 ----------

  const KEY_192: seq<Column> := [
    Column(0x8e, 0x73, 0xb0, 0xf7),
    Column(0xda, 0x0e, 0x64, 0x52),
    Column(0xc8, 0x10, 0xf3, 0x2b),
    Column(0x80, 0x90, 0x79, 0xe5),
    Column(0x62, 0xf8, 0xea, 0xd2),
    Column(0x52, 0x2c, 0x6b, 0x7b)]

  lemma Words192()
    ensures ExpandedWord(KEY_192, 6) == Column(0xfe, 0x0c, 0x91, 0xf7)
    ensures ExpandedWord(KEY_192, 7) == Column(0x24, 0x02, 0xf5, 0xa5)
    ensures ExpandedWord(KEY_192, 8) == Column(0xec, 0x12, 0x06, 0x8e)
    ensures ExpandedWord(KEY_192, 9) == Column(0x6c, 0x82, 0x7f, 0x6b)
    ensures ExpandedWord(KEY_192, 10) == Column(0x0e, 0x7a, 0x95, 0xb9)
  {
    assert PowerOfX(0) == 1;
    assert ExpandedWord(KEY_192, 0) == KEY_192[0] && ExpandedWord(KEY_192, 1) == KEY_192[1] && ExpandedWord(KEY_192, 2) == KEY_192[2] && ExpandedWord(KEY_192, 3) == KEY_192[3] && ExpandedWord(KEY_192, 4) == KEY_192[4] && ExpandedWord(KEY_192, 5) == KEY_192[5];
  }

  const KEY_256: seq<Column> := [
    Column(0x60, 0x3d, 0xeb, 0x10),
    Column(0x15, 0xca, 0x71, 0xbe),
    Column(0x2b, 0x73, 0xae, 0xf0),
    Column(0x85, 0x7d, 0x77, 0x81),
    Column(0x1f, 0x35, 0x2c, 0x07),
    Column(0x3b, 0x61, 0x08, 0xd7),
    Column(0x2d, 0x98, 0x10, 0xa3),
    Column(0x09, 0x14, 0xdf, 0xf4)]

  lemma Words256()
    ensures ExpandedWord(KEY_256, 8) == Column(0x9b, 0xa3, 0x54, 0x11)
    ensures ExpandedWord(KEY_256, 9) == Column(0x8e, 0x69, 0x25, 0xaf)
    ensures ExpandedWord(KEY_256, 10) == Column(0xa5, 0x1a, 0x8b, 0x5f)
    ensures ExpandedWord(KEY_256, 11) == Column(0x20, 0x67, 0xfc, 0xde)
    ensures ExpandedWord(KEY_256, 12) == Column(0xa8, 0xb0, 0x9c, 0x1a)
  {
    assert PowerOfX(0) == 1;
    assert ExpandedWord(KEY_256, 0) == KEY_256[0] && ExpandedWord(KEY_256, 1) == KEY_256[1] && ExpandedWord(KEY_256, 2) == KEY_256[2] && ExpandedWord(KEY_256, 3) == KEY_256[3] && ExpandedWord(KEY_256, 4) == KEY_256[4] && ExpandedWord(KEY_256, 5) == KEY_256[5] && ExpandedWord(KEY_256, 6) == KEY_256[6] && ExpandedWord(KEY_256, 7) == KEY_256[7];
  }

  // ---------- appendix B ----------

  const INPUT: Block := Block(Column(0x32, 0x43, 0xf6, 0xa8), Column(0x88, 0x5a, 0x30, 0x8d), Column(0x31, 0x31, 0x98, 0xa2), Column(0xe0, 0x37, 0x07, 0x34))

  /** The key schedule of the example. */
  function Schedule(): (w: seq<Column>)
    ensures |w| == 44
  {
    ExpandedKey(KEY, 44)
  }

  lemma ScheduleRound(r: nat)
    requires r <= 10
    ensures RoundKey(Schedule(), r) ==
            Block(ExpandedWord(KEY, 4 * r), ExpandedWord(KEY, 4 * r + 1), ExpandedWord(KEY, 4 * r + 2), ExpandedWord(KEY, 4 * r + 3))
  {
    hide ExpandedWord;
  }

  lemma NextState(r: nat)
    requires 0 < r <= 10
    ensures Rounds(INPUT, Schedule(), r) ==
            AddRoundKey(MixColumns(ShiftRows(SubBytes(Rounds(INPUT, Schedule(), r - 1)))), RoundKey(Schedule(), r))
  {}

  /** MixColumns by doubling alone. */
  lemma MixByDoubling(a: Column)
    ensures MixColumn(a) ==
            Column(Add(Add(XTime(a.b0), Add(a.b1, XTime(a.b1))), Add(a.b2, a.b3)),
                   Add(Add(a.b0, XTime(a.b1)), Add(Add(a.b2, XTime(a.b2)), a.b3)),
                   Add(Add(a.b0, a.b1), Add(XTime(a.b2), Add(a.b3, XTime(a.b3)))),
                   Add(Add(Add(a.b0, XTime(a.b0)), a.b1), Add(a.b2, XTime(a.b3))))
  {
    hide Add, XTime, Mul;
    MulByConstants(a.b0);
    MulByConstants(a.b1);
    MulByConstants(a.b2);
    MulByConstants(a.b3);
  }

  lemma State0()
    ensures Rounds(INPUT, Schedule(), 0) ==
            Block(Column(0x19, 0x3d, 0xe3, 0xbe), Column(0xa0, 0xf4, 0xe2, 0x2b), Column(0x9a, 0xc6, 0x8d, 0x2a), Column(0xe9, 0xf8, 0x48, 0x08))
  {
    hide Schedule;
    ScheduleRound(0);
    Words0();
    hide ExpandedWord;
  }

  lemma State1()
    ensures Rounds(INPUT, Schedule(), 1) ==
            Block(Column(0xa4, 0x9c, 0x7f, 0xf2), Column(0x68, 0x9f, 0x35, 0x2b), Column(0x6b, 0x5b, 0xea, 0x43), Column(0x02, 0x6a, 0x50, 0x49))
  {
    hide Rounds, Schedule, ExpandedWord, MixColumn;
    State0();
    NextState(1);
    ScheduleRound(1);
    Words1();
    MixByDoubling(Column(0xd4, 0xbf, 0x5d, 0x30));
    MixByDoubling(Column(0xe0, 0xb4, 0x52, 0xae));
    MixByDoubling(Column(0xb8, 0x41, 0x11, 0xf1));
    MixByDoubling(Column(0x1e, 0x27, 0x98, 0xe5));
  }

  lemma State2()
    ensures Rounds(INPUT, Schedule(), 2) ==
            Block(Column(0xaa, 0x8f, 0x5f, 0x03), Column(0x61, 0xdd, 0xe3, 0xef), Column(0x82, 0xd2, 0x4a, 0xd2), Column(0x68, 0x32, 0x46, 0x9a))
  {
    hide Rounds, Schedule, ExpandedWord, MixColumn;
    State1();
    NextState(2);
    ScheduleRound(2);
    Words2();
    MixByDoubling(Column(0x49, 0xdb, 0x87, 0x3b));
    MixByDoubling(Column(0x45, 0x39, 0x53, 0x89));
    MixByDoubling(Column(0x7f, 0x02, 0xd2, 0xf1));
    MixByDoubling(Column(0x77, 0xde, 0x96, 0x1a));
  }

  lemma State3()
    ensures Rounds(INPUT, Schedule(), 3) ==
            Block(Column(0x48, 0x6c, 0x4e, 0xee), Column(0x67, 0x1d, 0x9d, 0x0d), Column(0x4d, 0xe3, 0xb1, 0x38), Column(0xd6, 0x5f, 0x58, 0xe7))
  {
    hide Rounds, Schedule, ExpandedWord, MixColumn;
    State2();
    NextState(3);
    ScheduleRound(3);
    Words3();
    MixByDoubling(Column(0xac, 0xc1, 0xd6, 0xb8));
    MixByDoubling(Column(0xef, 0xb5, 0x5a, 0x7b));
    MixByDoubling(Column(0x13, 0x23, 0xcf, 0xdf));
    MixByDoubling(Column(0x45, 0x73, 0x11, 0xb5));
  }

  lemma State4()
    ensures Rounds(INPUT, Schedule(), 4) ==
            Block(Column(0xe0, 0x92, 0x7f, 0xe8), Column(0xc8, 0x63, 0x63, 0xc0), Column(0xd9, 0xb1, 0x35, 0x50), Column(0x85, 0xb8, 0xbe, 0x01))
  {
    hide Rounds, Schedule, ExpandedWord, MixColumn;
    State3();
    NextState(4);
    ScheduleRound(4);
    Words4();
    MixByDoubling(Column(0x52, 0xa4, 0xc8, 0x94));
    MixByDoubling(Column(0x85, 0x11, 0x6a, 0x28));
    MixByDoubling(Column(0xe3, 0xcf, 0x2f, 0xd7));
    MixByDoubling(Column(0xf6, 0x50, 0x5e, 0x07));
  }

  lemma State5()
    ensures Rounds(INPUT, Schedule(), 5) ==
            Block(Column(0xf1, 0x00, 0x6f, 0x55), Column(0xc1, 0x92, 0x4c, 0xef), Column(0x7c, 0xc8, 0x8b, 0x32), Column(0x5d, 0xb5, 0xd5, 0x0c))
  {
    hide Rounds, Schedule, ExpandedWord, MixColumn;
    State4();
    NextState(5);
    ScheduleRound(5);
    Words5();
    MixByDoubling(Column(0xe1, 0xfb, 0x96, 0x7c));
    MixByDoubling(Column(0xe8, 0xc8, 0xae, 0x9b));
    MixByDoubling(Column(0x35, 0x6c, 0xd2, 0xba));
    MixByDoubling(Column(0x97, 0x4f, 0xfb, 0x53));
  }

  lemma State6()
    ensures Rounds(INPUT, Schedule(), 6) ==
            Block(Column(0x26, 0x0e, 0x2e, 0x17), Column(0x3d, 0x41, 0xb7, 0x7d), Column(0xe8, 0x64, 0x72, 0xa9), Column(0xfd, 0xd2, 0x8b, 0x25))
  {
    hide Rounds, Schedule, ExpandedWord, MixColumn;
    State5();
    NextState(6);
    ScheduleRound(6);
    Words6();
    MixByDoubling(Column(0xa1, 0x4f, 0x3d, 0xfe));
    MixByDoubling(Column(0x78, 0xe8, 0x03, 0xfc));
    MixByDoubling(Column(0x10, 0xd5, 0xa8, 0xdf));
    MixByDoubling(Column(0x4c, 0x63, 0x29, 0x23));
  }

  lemma State7()
    ensures Rounds(INPUT, Schedule(), 7) ==
            Block(Column(0x5a, 0x41, 0x42, 0xb1), Column(0x19, 0x49, 0xdc, 0x1f), Column(0xa3, 0xe0, 0x19, 0x65), Column(0x7a, 0x8c, 0x04, 0x0c))
  {
    hide Rounds, Schedule, ExpandedWord, MixColumn;
    State6();
    NextState(7);
    ScheduleRound(7);
    Words7();
    MixByDoubling(Column(0xf7, 0x83, 0x40, 0x3f));
    MixByDoubling(Column(0x27, 0x43, 0x3d, 0xf0));
    MixByDoubling(Column(0x9b, 0xb5, 0x31, 0xff));
    MixByDoubling(Column(0x54, 0xab, 0xa9, 0xd3));
  }

  lemma State8()
    ensures Rounds(INPUT, Schedule(), 8) ==
            Block(Column(0xea, 0x83, 0x5c, 0xf0), Column(0x04, 0x45, 0x33, 0x2d), Column(0x65, 0x5d, 0x98, 0xad), Column(0x85, 0x96, 0xb0, 0xc5))
  {
    hide Rounds, Schedule, ExpandedWord, MixColumn;
    State7();
    NextState(8);
    ScheduleRound(8);
    Words8();
    MixByDoubling(Column(0xbe, 0x3b, 0xd4, 0xfe));
    MixByDoubling(Column(0xd4, 0xe1, 0xf2, 0xc8));
    MixByDoubling(Column(0x0a, 0x64, 0x2c, 0xc0));
    MixByDoubling(Column(0xda, 0x83, 0x86, 0x4d));
  }

  lemma State9()
    ensures Rounds(INPUT, Schedule(), 9) ==
            Block(Column(0xeb, 0x40, 0xf2, 0x1e), Column(0x59, 0x2e, 0x38, 0x84), Column(0x8b, 0xa1, 0x13, 0xe7), Column(0x1b, 0xc3, 0x42, 0xd2))
  {
    hide Rounds, Schedule, ExpandedWord, MixColumn;
    State8();
    NextState(9);
    ScheduleRound(9);
    Words9();
    MixByDoubling(Column(0x87, 0x6e, 0x46, 0xa6));
    MixByDoubling(Column(0xf2, 0x4c, 0xe7, 0x8c));
    MixByDoubling(Column(0x4d, 0x90, 0x4a, 0xd8));
    MixByDoubling(Column(0x97, 0xec, 0xc3, 0x95));
  }

  lemma LastState()
    ensures Cipher(INPUT, Schedule(), 10) ==
            Block(Column(0x39, 0x25, 0x84, 0x1d), Column(0x02, 0xdc, 0x09, 0xfb), Column(0xdc, 0x11, 0x85, 0x97), Column(0x19, 0x6a, 0x0b, 0x32))
  {
    hide Rounds, Schedule, ExpandedWord;
    State9();
    ScheduleRound(10);
    Words10();
  }

  lemma KeyBytes()
    ensures KeyColumns([0x2b, 0x7e, 0x15, 0x16, 0x28, 0xae, 0xd2, 0xa6, 0xab, 0xf7, 0x15, 0x88, 0x09, 0xcf, 0x4f, 0x3c]) == KEY
  {}

  lemma TextBytes()
    ensures BlockOfBytes([0x32, 0x43, 0xf6, 0xa8, 0x88, 0x5a, 0x30, 0x8d, 0x31, 0x31, 0x98, 0xa2, 0xe0, 0x37, 0x07, 0x34]) == INPUT
    ensures BlockOfBytes([0x39, 0x25, 0x84, 0x1d, 0x02, 0xdc, 0x09, 0xfb, 0xdc, 0x11, 0x85, 0x97, 0x19, 0x6a, 0x0b, 0x32]) ==
            Block(Column(0x39, 0x25, 0x84, 0x1d), Column(0x02, 0xdc, 0x09, 0xfb), Column(0xdc, 0x11, 0x85, 0x97), Column(0x19, 0x6a, 0x0b, 0x32))
  {}

  /**
   The key and the input of appendix B as bytes, in the order in which a caller passes them, and the
   cipher of the input under the expanded key.
   */
  lemma AppendixB()
    ensures KeyColumns([0x2b, 0x7e, 0x15, 0x16, 0x28, 0xae, 0xd2, 0xa6, 0xab, 0xf7, 0x15, 0x88, 0x09, 0xcf, 0x4f, 0x3c]) == KEY
    ensures BlockOfBytes([0x32, 0x43, 0xf6, 0xa8, 0x88, 0x5a, 0x30, 0x8d, 0x31, 0x31, 0x98, 0xa2, 0xe0, 0x37, 0x07, 0x34]) == INPUT
    ensures KeyWords(16) == 4 && NumRounds(16) == 10 && KeyWords(24) == 6 && NumRounds(24) == 12 && KeyWords(32) == 8 && NumRounds(32) == 14
    ensures Cipher(INPUT, ExpandedKey(KEY, 44), 10) == BlockOfBytes([0x39, 0x25, 0x84, 0x1d, 0x02, 0xdc, 0x09, 0xfb, 0xdc, 0x11, 0x85, 0x97, 0x19, 0x6a, 0x0b, 0x32])
  {
    hide Cipher, ExpandedKey, BlockOfBytes, KeyColumns;
    KeyBytes();
    TextBytes();
    LastState();
  }
}
