/** The examples of FIPS 197: key expansions of Appendix A, and the cipher of Appendix B. */
module AesExample {
  import opened SBox
  import opened Fips197
  import opened Rijndael
  import opened KeySchedule
  import opened Aes

  // ---------------------------------------------------------------- Appendix A

  const KEY_128: seq<bv8> := [
    0x2b, 0x7e, 0x15, 0x16, 0x28, 0xae, 0xd2, 0xa6, 0xab, 0xf7, 0x15, 0x88, 0x09, 0xcf, 0x4f, 0x3c]

  const KEY_192: seq<bv8> := [
    0x8e, 0x73, 0xb0, 0xf7, 0xda, 0x0e, 0x64, 0x52, 0xc8, 0x10, 0xf3, 0x2b,
    0x80, 0x90, 0x79, 0xe5, 0x62, 0xf8, 0xea, 0xd2, 0x52, 0x2c, 0x6b, 0x7b]

  const KEY_256: seq<bv8> := [
    0x60, 0x3d, 0xeb, 0x10, 0x15, 0xca, 0x71, 0xbe, 0x2b, 0x73, 0xae, 0xf0, 0x85, 0x7d, 0x77, 0x81,
    0x1f, 0x35, 0x2c, 0x07, 0x3b, 0x61, 0x08, 0xd7, 0x2d, 0x98, 0x10, 0xa3, 0x09, 0x14, 0xdf, 0xf4]

  /** Round key i of a 128-bit key. */
  function KeyState(key: seq<bv8>, i: nat): State
    requires |key| == 16
  {
    State(KeyWord(key, 4, 4 * i), KeyWord(key, 4, 4 * i + 1), KeyWord(key, 4, 4 * i + 2), KeyWord(key, 4, 4 * i + 3))
  }

  /** The round key after k, for the round constant rc. */
  function NextKey(k: State, rc: bv8): State {
    var w0 := AddColumns(k.c0, AddColumns(SubColumn(RotColumn(k.c3)), Column(rc, 0, 0, 0)));
    var w1 := AddColumns(k.c1, w0);
    var w2 := AddColumns(k.c2, w1);
    State(w0, w1, w2, AddColumns(k.c3, w2))
  }

  lemma ExpandStep(key: seq<bv8>, i: nat)
    requires |key| == 16
    ensures KeyState(key, i + 1) == NextKey(KeyState(key, i), XPower(i))
  {
    hide AddColumns, SubColumn, RotColumn, XPower;
    assert KeyWord(key, 4, 4 * i + 4)
        == AddColumns(KeyWord(key, 4, 4 * i),
                      AddColumns(SubColumn(RotColumn(KeyWord(key, 4, 4 * i + 3))), Column(XPower(i), 0, 0, 0)));
  }

  // The round keys of the first key.
  const K0 := State(Column(0x2b, 0x7e, 0x15, 0x16), Column(0x28, 0xae, 0xd2, 0xa6),
    Column(0xab, 0xf7, 0x15, 0x88), Column(0x09, 0xcf, 0x4f, 0x3c))
  const K1 := State(Column(0xa0, 0xfa, 0xfe, 0x17), Column(0x88, 0x54, 0x2c, 0xb1),
    Column(0x23, 0xa3, 0x39, 0x39), Column(0x2a, 0x6c, 0x76, 0x05))
  const K2 := State(Column(0xf2, 0xc2, 0x95, 0xf2), Column(0x7a, 0x96, 0xb9, 0x43),
    Column(0x59, 0x35, 0x80, 0x7a), Column(0x73, 0x59, 0xf6, 0x7f))
  const K3 := State(Column(0x3d, 0x80, 0x47, 0x7d), Column(0x47, 0x16, 0xfe, 0x3e),
    Column(0x1e, 0x23, 0x7e, 0x44), Column(0x6d, 0x7a, 0x88, 0x3b))
  const K4 := State(Column(0xef, 0x44, 0xa5, 0x41), Column(0xa8, 0x52, 0x5b, 0x7f),
    Column(0xb6, 0x71, 0x25, 0x3b), Column(0xdb, 0x0b, 0xad, 0x00))
  const K5 := State(Column(0xd4, 0xd1, 0xc6, 0xf8), Column(0x7c, 0x83, 0x9d, 0x87),
    Column(0xca, 0xf2, 0xb8, 0xbc), Column(0x11, 0xf9, 0x15, 0xbc))
  const K6 := State(Column(0x6d, 0x88, 0xa3, 0x7a), Column(0x11, 0x0b, 0x3e, 0xfd),
    Column(0xdb, 0xf9, 0x86, 0x41), Column(0xca, 0x00, 0x93, 0xfd))
  const K7 := State(Column(0x4e, 0x54, 0xf7, 0x0e), Column(0x5f, 0x5f, 0xc9, 0xf3),
    Column(0x84, 0xa6, 0x4f, 0xb2), Column(0x4e, 0xa6, 0xdc, 0x4f))
  const K8 := State(Column(0xea, 0xd2, 0x73, 0x21), Column(0xb5, 0x8d, 0xba, 0xd2),
    Column(0x31, 0x2b, 0xf5, 0x60), Column(0x7f, 0x8d, 0x29, 0x2f))
  const K9 := State(Column(0xac, 0x77, 0x66, 0xf3), Column(0x19, 0xfa, 0xdc, 0x21),
    Column(0x28, 0xd1, 0x29, 0x41), Column(0x57, 0x5c, 0x00, 0x6e))
  const K10 := State(Column(0xd0, 0x14, 0xf9, 0xa8), Column(0xc9, 0xee, 0x25, 0x89),
    Column(0xe1, 0x3f, 0x0c, 0xc8), Column(0xb6, 0x63, 0x0c, 0xa6))

  // The state after every round.
  const X0 := State(Column(0x19, 0x3d, 0xe3, 0xbe), Column(0xa0, 0xf4, 0xe2, 0x2b),
    Column(0x9a, 0xc6, 0x8d, 0x2a), Column(0xe9, 0xf8, 0x48, 0x08))
  const X1 := State(Column(0xa4, 0x9c, 0x7f, 0xf2), Column(0x68, 0x9f, 0x35, 0x2b),
    Column(0x6b, 0x5b, 0xea, 0x43), Column(0x02, 0x6a, 0x50, 0x49))
  const X2 := State(Column(0xaa, 0x8f, 0x5f, 0x03), Column(0x61, 0xdd, 0xe3, 0xef),
    Column(0x82, 0xd2, 0x4a, 0xd2), Column(0x68, 0x32, 0x46, 0x9a))
  const X3 := State(Column(0x48, 0x6c, 0x4e, 0xee), Column(0x67, 0x1d, 0x9d, 0x0d),
    Column(0x4d, 0xe3, 0xb1, 0x38), Column(0xd6, 0x5f, 0x58, 0xe7))
  const X4 := State(Column(0xe0, 0x92, 0x7f, 0xe8), Column(0xc8, 0x63, 0x63, 0xc0),
    Column(0xd9, 0xb1, 0x35, 0x50), Column(0x85, 0xb8, 0xbe, 0x01))
  const X5 := State(Column(0xf1, 0x00, 0x6f, 0x55), Column(0xc1, 0x92, 0x4c, 0xef),
    Column(0x7c, 0xc8, 0x8b, 0x32), Column(0x5d, 0xb5, 0xd5, 0x0c))
  const X6 := State(Column(0x26, 0x0e, 0x2e, 0x17), Column(0x3d, 0x41, 0xb7, 0x7d),
    Column(0xe8, 0x64, 0x72, 0xa9), Column(0xfd, 0xd2, 0x8b, 0x25))
  const X7 := State(Column(0x5a, 0x41, 0x42, 0xb1), Column(0x19, 0x49, 0xdc, 0x1f),
    Column(0xa3, 0xe0, 0x19, 0x65), Column(0x7a, 0x8c, 0x04, 0x0c))
  const X8 := State(Column(0xea, 0x83, 0x5c, 0xf0), Column(0x04, 0x45, 0x33, 0x2d),
    Column(0x65, 0x5d, 0x98, 0xad), Column(0x85, 0x96, 0xb0, 0xc5))
  const X9 := State(Column(0xeb, 0x40, 0xf2, 0x1e), Column(0x59, 0x2e, 0x38, 0x84),
    Column(0x8b, 0xa1, 0x13, 0xe7), Column(0x1b, 0xc3, 0x42, 0xd2))
  const X10 := State(Column(0x39, 0x25, 0x84, 0x1d), Column(0x02, 0xdc, 0x09, 0xfb),
    Column(0xdc, 0x11, 0x85, 0x97), Column(0x19, 0x6a, 0x0b, 0x32))

  lemma Key1()
    ensures NextKey(K0, 0x01) == K1
  {
  }

  lemma Key2()
    ensures NextKey(K1, 0x02) == K2
  {
  }

  lemma Key3()
    ensures NextKey(K2, 0x04) == K3
  {
  }

  lemma Key4()
    ensures NextKey(K3, 0x08) == K4
  {
  }

  lemma Key5()
    ensures NextKey(K4, 0x10) == K5
  {
  }

  lemma Key6()
    ensures NextKey(K5, 0x20) == K6
  {
  }

  lemma Key7()
    ensures NextKey(K6, 0x40) == K7
  {
  }

  lemma Key8()
    ensures NextKey(K7, 0x80) == K8
  {
  }

  lemma Key9()
    ensures NextKey(K8, 0x1b) == K9
  {
  }

  lemma Key10()
    ensures NextKey(K9, 0x36) == K10
  {
  }

  lemma Round1()
    ensures AddRoundKey(MixColumns(ShiftRows(SubBytes(X0))), K1) == X1
  {
  }

  lemma Round2()
    ensures AddRoundKey(MixColumns(ShiftRows(SubBytes(X1))), K2) == X2
  {
  }

  lemma Round3()
    ensures AddRoundKey(MixColumns(ShiftRows(SubBytes(X2))), K3) == X3
  {
  }

  lemma Round4()
    ensures AddRoundKey(MixColumns(ShiftRows(SubBytes(X3))), K4) == X4
  {
  }

  lemma Round5()
    ensures AddRoundKey(MixColumns(ShiftRows(SubBytes(X4))), K5) == X5
  {
  }

  lemma Round6()
    ensures AddRoundKey(MixColumns(ShiftRows(SubBytes(X5))), K6) == X6
  {
  }

  lemma Round7()
    ensures AddRoundKey(MixColumns(ShiftRows(SubBytes(X6))), K7) == X7
  {
  }

  lemma Round8()
    ensures AddRoundKey(MixColumns(ShiftRows(SubBytes(X7))), K8) == X8
  {
  }

  lemma Round9()
    ensures AddRoundKey(MixColumns(ShiftRows(SubBytes(X8))), K9) == X9
  {
  }

  lemma Key0()
    ensures KeyState(KEY_128, 0) == K0
  {
  }

  /** Appendix A.1: the expansion of a 128-bit key. */
  lemma Expansion128()
    ensures KeyState(KEY_128, 0) == K0
    ensures KeyState(KEY_128, 1) == K1
    ensures KeyState(KEY_128, 2) == K2
    ensures KeyState(KEY_128, 3) == K3
    ensures KeyState(KEY_128, 4) == K4
    ensures KeyState(KEY_128, 5) == K5
    ensures KeyState(KEY_128, 6) == K6
    ensures KeyState(KEY_128, 7) == K7
    ensures KeyState(KEY_128, 8) == K8
    ensures KeyState(KEY_128, 9) == K9
    ensures KeyState(KEY_128, 10) == K10
  {
    hide NextKey, XPower, KeyState;
    XPowers();
    Key0();
    ExpandStep(KEY_128, 0);
    Key1();
    ExpandStep(KEY_128, 1);
    Key2();
    ExpandStep(KEY_128, 2);
    Key3();
    ExpandStep(KEY_128, 3);
    Key4();
    ExpandStep(KEY_128, 4);
    Key5();
    ExpandStep(KEY_128, 5);
    Key6();
    ExpandStep(KEY_128, 6);
    Key7();
    ExpandStep(KEY_128, 7);
    Key8();
    ExpandStep(KEY_128, 8);
    Key9();
    ExpandStep(KEY_128, 9);
    Key10();
  }

  lemma KeyWords192()
    ensures KeyWord(KEY_192, 6, 0) == Column(0x8e, 0x73, 0xb0, 0xf7)
    ensures KeyWord(KEY_192, 6, 5) == Column(0x52, 0x2c, 0x6b, 0x7b)
  {
  }

  lemma KeyWords256()
    ensures KeyWord(KEY_256, 8, 0) == Column(0x60, 0x3d, 0xeb, 0x10)
    ensures KeyWord(KEY_256, 8, 1) == Column(0x15, 0xca, 0x71, 0xbe)
  {
  }

  lemma MoreKeyWords256()
    ensures KeyWord(KEY_256, 8, 2) == Column(0x2b, 0x73, 0xae, 0xf0)
    ensures KeyWord(KEY_256, 8, 3) == Column(0x85, 0x7d, 0x77, 0x81)
    ensures KeyWord(KEY_256, 8, 4) == Column(0x1f, 0x35, 0x2c, 0x07)
    ensures KeyWord(KEY_256, 8, 7) == Column(0x09, 0x14, 0xdf, 0xf4)
  {
  }

  lemma Substituted()
    ensures S(0x52) == 0x00 && S(0x2c) == 0x71 && S(0x6b) == 0x7f && S(0x7b) == 0x21
    ensures S(0x09) == 0x01 && S(0x14) == 0xfa && S(0xdf) == 0x9e && S(0xf4) == 0xbf
    ensures S(0x20) == 0xb7 && S(0x67) == 0x85 && S(0xfc) == 0xb0 && S(0xde) == 0x1d
  {
  }

  /** Appendix A.2: the first word that a 192-bit key does not hold itself. */
  lemma Expansion192()
    ensures KeyWord(KEY_192, 6, 6) == Column(0xfe, 0x0c, 0x91, 0xf7)
  {
    hide KeyWord, S, XPower;
    KeyWords192();
    Substituted();
    XPowers();
    KeyWordStart(KEY_192, 6, 6);
  }

  /** Appendix A.3: the words of a 256-bit key up to one in the middle of a group. */
  lemma Expansion256()
    ensures KeyWord(KEY_256, 8, 8) == Column(0x9b, 0xa3, 0x54, 0x11)
    ensures KeyWord(KEY_256, 8, 11) == Column(0x20, 0x67, 0xfc, 0xde)
    ensures KeyWord(KEY_256, 8, 12) == Column(0xa8, 0xb0, 0x9c, 0x1a)
  {
    hide KeyWord, S, XPower;
    KeyWords256();
    MoreKeyWords256();
    Substituted();
    XPowers();
    KeyWordStart(KEY_256, 8, 8);
    KeyWordOther(KEY_256, 8, 9);
    KeyWordOther(KEY_256, 8, 10);
    KeyWordOther(KEY_256, 8, 11);
    KeyWordMiddle(KEY_256, 8, 12);
  }

  const INPUT: seq<bv8> :=
    [0x32, 0x43, 0xf6, 0xa8, 0x88, 0x5a, 0x30, 0x8d, 0x31, 0x31, 0x98, 0xa2, 0xe0, 0x37, 0x07, 0x34]

  const OUTPUT: seq<bv8> :=
    [0x39, 0x25, 0x84, 0x1d, 0x02, 0xdc, 0x09, 0xfb, 0xdc, 0x11, 0x85, 0x97, 0x19, 0x6a, 0x0b, 0x32]

  lemma StartState()
    ensures AddRoundKey(BlockState(INPUT), K0) == X0
  {
  }

  lemma LastRound()
    ensures StateBytes(AddRoundKey(ShiftRows(SubBytes(X9)), K10)) == OUTPUT
  {
  }

  lemma KeyStateOf(key: seq<bv8>, i: nat)
    requires |key| == 16 && i <= 10
    ensures ExpandedKeys(key, 4, 10)[i] == KeyState(key, i)
  {
    hide KeyWord;
  }

  /** The rounds of Appendix B. */
  lemma Rounds()
    ensures EncRound(ExpandedKeys(KEY_128, 4, 10), BlockState(INPUT), 9) == X9
  {
    hide AddRoundKey, SubBytes, ShiftRows, MixColumns, BlockState, KeyState, ExpandedKeys;
    var keys, x := ExpandedKeys(KEY_128, 4, 10), BlockState(INPUT);
    Expansion128();
    StartState();
    KeyStateOf(KEY_128, 0);
    KeyStateOf(KEY_128, 1);
    Round1();
    assert EncRound(keys, x, 1) == X1;
    KeyStateOf(KEY_128, 2);
    Round2();
    assert EncRound(keys, x, 2) == X2;
    KeyStateOf(KEY_128, 3);
    Round3();
    assert EncRound(keys, x, 3) == X3;
    KeyStateOf(KEY_128, 4);
    Round4();
    assert EncRound(keys, x, 4) == X4;
    KeyStateOf(KEY_128, 5);
    Round5();
    assert EncRound(keys, x, 5) == X5;
    KeyStateOf(KEY_128, 6);
    Round6();
    assert EncRound(keys, x, 6) == X6;
    KeyStateOf(KEY_128, 7);
    Round7();
    assert EncRound(keys, x, 7) == X7;
    KeyStateOf(KEY_128, 8);
    Round8();
    assert EncRound(keys, x, 8) == X8;
    KeyStateOf(KEY_128, 9);
    Round9();
    assert EncRound(keys, x, 9) == X9;
  }

  /** Appendix B: one block under the key of Appendix A.1. */
  lemma CipherExample()
    ensures EncryptBlock(ExpandedKeys(KEY_128, 4, 10), INPUT) == OUTPUT
  {
    hide AddRoundKey, SubBytes, ShiftRows, EncRound, BlockState, StateBytes, KeyState, ExpandedKeys;
    Expansion128();
    Rounds();
    KeyStateOf(KEY_128, 10);
    LastRound();
  }

  /** The same by the key setup and the block routine. */
  method EncryptExample() returns (out: array<bv8>)
    ensures out[..] == OUTPUT
  {
    hide ExpandedKeys, RoundKeysOf, EncryptBlock;
    var key := new AesKey();
    var r := key.SetEncryptKey(KEY_128, 128);
    var inp := new bv8[16](i requires 0 <= i < 16 => INPUT[i]);
    assert inp[0..16] == INPUT;
    out := new bv8[16];
    key.Encrypt(inp, 0, out, 0);
    CipherExample();
  }
}
