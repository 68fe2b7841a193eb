/**
 * The cipher at the level of bytes, as FIPS 197 specifies it: the state, its four
 * transformations, the ciphers of sections 5.1, 5.3 and 5.3.5 and the key expansion of 5.2.
 */
module Fips197 {
  import opened Gf256
  import opened SBox

  /** A column of the state, or a word of the key schedule, from row 0 down. */
  datatype Column = Column(b0: bv8, b1: bv8, b2: bv8, b3: bv8)

  datatype State = State(c0: Column, c1: Column, c2: Column, c3: Column)

  function AddColumns(u: Column, v: Column): Column {
    Column(Add(u.b0, v.b0), Add(u.b1, v.b1), Add(u.b2, v.b2), Add(u.b3, v.b3))
  }

  function SubColumn(u: Column): Column {
    Column(S(u.b0), S(u.b1), S(u.b2), S(u.b3))
  }

  function InvSubColumn(u: Column): Column {
    Column(Si(u.b0), Si(u.b1), Si(u.b2), Si(u.b3))
  }

  function MixColumn(u: Column): Column {
    Column(Mix(u.b0, u.b1, u.b2, u.b3), Mix(u.b1, u.b2, u.b3, u.b0),
           Mix(u.b2, u.b3, u.b0, u.b1), Mix(u.b3, u.b0, u.b1, u.b2))
  }

  function InvMixColumn(u: Column): Column {
    Column(InvMix(u.b0, u.b1, u.b2, u.b3), InvMix(u.b1, u.b2, u.b3, u.b0),
           InvMix(u.b2, u.b3, u.b0, u.b1), InvMix(u.b3, u.b0, u.b1, u.b2))
  }

  function AddRoundKey(s: State, k: State): State {
    State(AddColumns(s.c0, k.c0), AddColumns(s.c1, k.c1), AddColumns(s.c2, k.c2), AddColumns(s.c3, k.c3))
  }

  function SubBytes(s: State): State {
    State(SubColumn(s.c0), SubColumn(s.c1), SubColumn(s.c2), SubColumn(s.c3))
  }

  function InvSubBytes(s: State): State {
    State(InvSubColumn(s.c0), InvSubColumn(s.c1), InvSubColumn(s.c2), InvSubColumn(s.c3))
  }

  /** Row r moves r places to the left. */
  function ShiftRows(s: State): State {
    State(Column(s.c0.b0, s.c1.b1, s.c2.b2, s.c3.b3), Column(s.c1.b0, s.c2.b1, s.c3.b2, s.c0.b3),
          Column(s.c2.b0, s.c3.b1, s.c0.b2, s.c1.b3), Column(s.c3.b0, s.c0.b1, s.c1.b2, s.c2.b3))
  }

  /** Row r moves r places to the right. */
  function InvShiftRows(s: State): State {
    State(Column(s.c0.b0, s.c3.b1, s.c2.b2, s.c1.b3), Column(s.c1.b0, s.c0.b1, s.c3.b2, s.c2.b3),
          Column(s.c2.b0, s.c1.b1, s.c0.b2, s.c3.b3), Column(s.c3.b0, s.c2.b1, s.c1.b2, s.c0.b3))
  }

  function MixColumns(s: State): State {
    State(MixColumn(s.c0), MixColumn(s.c1), MixColumn(s.c2), MixColumn(s.c3))
  }

  function InvMixColumns(s: State): State {
    State(InvMixColumn(s.c0), InvMixColumn(s.c1), InvMixColumn(s.c2), InvMixColumn(s.c3))
  }

  // ---------------------------------------------------------------- The ciphers

  /** Round keys 0 to Nr, for Nr at least 1. */
  type RoundKeys = keys: seq<State> | |keys| >= 2
    witness seq(2, _ => State(Column(0, 0, 0, 0), Column(0, 0, 0, 0), Column(0, 0, 0, 0), Column(0, 0, 0, 0)))

  /** The state after round i of the cipher of section 5.1, for the rounds that mix columns. */
  function EncRound(keys: RoundKeys, x: State, i: nat): State
    requires i < |keys| - 1
  {
    if i == 0 then
      AddRoundKey(x, keys[0])
    else
      AddRoundKey(MixColumns(ShiftRows(SubBytes(EncRound(keys, x, i - 1)))), keys[i])
  }

  /** The cipher, section 5.1 of FIPS 197. */
  function Cipher(keys: RoundKeys, x: State): State {
    AddRoundKey(ShiftRows(SubBytes(EncRound(keys, x, |keys| - 2))), keys[|keys| - 1])
  }

  function InvRound(keys: RoundKeys, y: State, i: nat): State
    requires i < |keys| - 1
  {
    if i == 0 then
      AddRoundKey(y, keys[|keys| - 1])
    else
      InvMixColumns(AddRoundKey(InvSubBytes(InvShiftRows(InvRound(keys, y, i - 1))), keys[|keys| - 1 - i]))
  }

  /** The inverse cipher, section 5.3 of FIPS 197. */
  function InvCipher(keys: RoundKeys, y: State): State {
    AddRoundKey(InvSubBytes(InvShiftRows(InvRound(keys, y, |keys| - 2))), keys[0])
  }

  /** Rounds of the equivalent inverse cipher; dkeys are used first to last. */
  function DecRound(dkeys: RoundKeys, y: State, i: nat): State
    requires i < |dkeys| - 1
  {
    if i == 0 then
      AddRoundKey(y, dkeys[0])
    else
      AddRoundKey(InvMixColumns(InvShiftRows(InvSubBytes(DecRound(dkeys, y, i - 1)))), dkeys[i])
  }

  /** The equivalent inverse cipher, section 5.3.5 of FIPS 197. */
  function EqInvCipher(dkeys: RoundKeys, y: State): State {
    AddRoundKey(InvShiftRows(InvSubBytes(DecRound(dkeys, y, |dkeys| - 2))), dkeys[|dkeys| - 1])
  }

  /** The round keys of the equivalent inverse cipher: reversed, the inner ones unmixed. */
  function InverseKeys(keys: RoundKeys): (dkeys: RoundKeys)
    ensures |dkeys| == |keys|
  {
    var n := |keys| - 1;
    seq(|keys|, i requires 0 <= i <= n =>
      if 0 < i < n then InvMixColumns(keys[n - i]) else keys[n - i])
  }

  // ---------------------------------------------------------------- Key expansion

  function RotColumn(u: Column): Column {
    Column(u.b1, u.b2, u.b3, u.b0)
  }

  /** {02} to the power e. */
  function XPower(e: nat): bv8 {
    if e == 0 then 1 else XTime(XPower(e - 1))
  }

  /** Word i of the expansion of a key of nk words, section 5.2 of FIPS 197. */
  function KeyWord(key: seq<bv8>, nk: nat, i: nat): Column
    requires nk >= 1 && 4 * nk <= |key|
  {
    if i < nk then
      Column(key[4 * i], key[4 * i + 1], key[4 * i + 2], key[4 * i + 3])
    else
      var temp := KeyWord(key, nk, i - 1);
      AddColumns(KeyWord(key, nk, i - nk),
        if i % nk == 0 then AddColumns(SubColumn(RotColumn(temp)), Column(XPower(i / nk - 1), 0, 0, 0))
        else if nk > 6 && i % nk == 4 then SubColumn(temp)
        else temp)
  }

  lemma KeyWordStep(key: seq<bv8>, nk: nat, i: nat)
    requires 1 <= nk <= i && 4 * nk <= |key|
    ensures var t := KeyWord(key, nk, i - 1);
      KeyWord(key, nk, i)
      == AddColumns(KeyWord(key, nk, i - nk),
        if i % nk == 0 then AddColumns(SubColumn(RotColumn(t)), Column(XPower(i / nk - 1), 0, 0, 0))
        else if nk > 6 && i % nk == 4 then SubColumn(t)
        else t)
  {
    hide AddColumns, SubColumn, RotColumn, XPower;
  }

  lemma AddExpanded(p: bv8, s: bv8, x: bv8)
    ensures Add(p, Add(s, x)) == Add(Add(p, s), x) && Add(p, Add(s, 0)) == Add(p, s)
  {
    hide Add;
    AddAssociative(p, s, x);
    AddZero(s);
  }

  /** The expansion byte by byte: a word that starts a group is rotated, substituted and added to a power of {02}. */
  lemma KeyWordStart(key: seq<bv8>, nk: nat, i: nat)
    requires 1 <= nk <= i && 4 * nk <= |key| && i % nk == 0
    ensures var p, t := KeyWord(key, nk, i - nk), KeyWord(key, nk, i - 1);
      KeyWord(key, nk, i)
      == Column(Add(Add(p.b0, S(t.b1)), XPower(i / nk - 1)), Add(p.b1, S(t.b2)),
                Add(p.b2, S(t.b3)), Add(p.b3, S(t.b0)))
  {
    hide S, Add, XPower, KeyWord;
    KeyWordStep(key, nk, i);
    var p, t := KeyWord(key, nk, i - nk), KeyWord(key, nk, i - 1);
    AddExpanded(p.b0, S(t.b1), XPower(i / nk - 1));
    AddExpanded(p.b1, S(t.b2), 0);
    AddExpanded(p.b2, S(t.b3), 0);
    AddExpanded(p.b3, S(t.b0), 0);
  }

  /** A word in the middle of a long group is substituted only. */
  lemma KeyWordMiddle(key: seq<bv8>, nk: nat, i: nat)
    requires 6 < nk <= i && 4 * nk <= |key| && i % nk == 4
    ensures var p, t := KeyWord(key, nk, i - nk), KeyWord(key, nk, i - 1);
      KeyWord(key, nk, i)
      == Column(Add(p.b0, S(t.b0)), Add(p.b1, S(t.b1)), Add(p.b2, S(t.b2)), Add(p.b3, S(t.b3)))
  {
    hide S, Add, KeyWord;
    KeyWordStep(key, nk, i);
  }

  /** Any other word is the sum of two before it. */
  lemma KeyWordOther(key: seq<bv8>, nk: nat, i: nat)
    requires 1 <= nk <= i && 4 * nk <= |key| && i % nk != 0 && !(nk > 6 && i % nk == 4)
    ensures var p, t := KeyWord(key, nk, i - nk), KeyWord(key, nk, i - 1);
      KeyWord(key, nk, i) == Column(Add(p.b0, t.b0), Add(p.b1, t.b1), Add(p.b2, t.b2), Add(p.b3, t.b3))
  {
    hide Add, KeyWord;
    KeyWordStep(key, nk, i);
  }

  /** The first words are the key's own bytes. */
  lemma KeyWordOfKey(key: seq<bv8>, nk: nat, i: nat, r: nat)
    requires i < nk && r < 4 && 4 * nk <= |key|
    ensures var w := KeyWord(key, nk, i); key[4 * i + r] == [w.b0, w.b1, w.b2, w.b3][r]
  {
  }

  function ExpandedKeys(key: seq<bv8>, nk: nat, nr: nat): (keys: RoundKeys)
    requires nk >= 1 && 4 * nk <= |key| && nr >= 1
    ensures |keys| == nr + 1
  {
    seq(nr + 1, i requires 0 <= i <= nr =>
      State(KeyWord(key, nk, 4 * i), KeyWord(key, nk, 4 * i + 1),
            KeyWord(key, nk, 4 * i + 2), KeyWord(key, nk, 4 * i + 3)))
  }

  // ---------------------------------------------------------------- Inverses of the transformations

  lemma AddColumnsCancels(u: Column, k: Column)
    ensures AddColumns(AddColumns(u, k), k) == u
  {
    hide Add;
    AddSelf(k.b0, u.b0);
    AddSelf(k.b1, u.b1);
    AddSelf(k.b2, u.b2);
    AddSelf(k.b3, u.b3);
  }

  lemma AddRoundKeyCancels(s: State, k: State)
    ensures AddRoundKey(AddRoundKey(s, k), k) == s
  {
    hide AddColumns;
    AddColumnsCancels(s.c0, k.c0);
    AddColumnsCancels(s.c1, k.c1);
    AddColumnsCancels(s.c2, k.c2);
    AddColumnsCancels(s.c3, k.c3);
  }

  lemma SubColumnInverse(u: Column)
    ensures InvSubColumn(SubColumn(u)) == u
    ensures SubColumn(InvSubColumn(u)) == u
  {
    hide S, Si;
    SiOfS(u.b0);
    SiOfS(u.b1);
    SiOfS(u.b2);
    SiOfS(u.b3);
    SOfSi(u.b0);
    SOfSi(u.b1);
    SOfSi(u.b2);
    SOfSi(u.b3);
  }

  lemma SubBytesInverse(s: State)
    ensures InvSubBytes(SubBytes(s)) == s
    ensures SubBytes(InvSubBytes(s)) == s
  {
    hide SubColumn, InvSubColumn;
    SubColumnInverse(s.c0);
    SubColumnInverse(s.c1);
    SubColumnInverse(s.c2);
    SubColumnInverse(s.c3);
  }

  lemma MixColumnInverse(u: Column)
    ensures InvMixColumn(MixColumn(u)) == u
    ensures MixColumn(InvMixColumn(u)) == u
  {
    hide Mix, InvMix;
    var Column(a, b, c, d) := u;
    InvMixOfMix(a, b, c, d);
    InvMixOfMix(b, c, d, a);
    InvMixOfMix(c, d, a, b);
    InvMixOfMix(d, a, b, c);
    MixOfInvMix(a, b, c, d);
    MixOfInvMix(b, c, d, a);
    MixOfInvMix(c, d, a, b);
    MixOfInvMix(d, a, b, c);
  }

  lemma MixColumnsInverse(s: State)
    ensures InvMixColumns(MixColumns(s)) == s
    ensures MixColumns(InvMixColumns(s)) == s
  {
    hide MixColumn, InvMixColumn;
    MixColumnInverse(s.c0);
    MixColumnInverse(s.c1);
    MixColumnInverse(s.c2);
    MixColumnInverse(s.c3);
  }

  lemma InvMixColumnAdditive(u: Column, v: Column)
    ensures InvMixColumn(AddColumns(u, v)) == AddColumns(InvMixColumn(u), InvMixColumn(v))
  {
    hide Add, InvMix;
    var Column(a, b, c, d) := u;
    var Column(p, q, r, s) := v;
    InvMixAdditive(a, b, c, d, p, q, r, s);
    InvMixAdditive(b, c, d, a, q, r, s, p);
    InvMixAdditive(c, d, a, b, r, s, p, q);
    InvMixAdditive(d, a, b, c, s, p, q, r);
  }

  lemma InvMixColumnsAdditive(s: State, k: State)
    ensures InvMixColumns(AddRoundKey(s, k)) == AddRoundKey(InvMixColumns(s), InvMixColumns(k))
  {
    hide AddColumns, InvMixColumn;
    InvMixColumnAdditive(s.c0, k.c0);
    InvMixColumnAdditive(s.c1, k.c1);
    InvMixColumnAdditive(s.c2, k.c2);
    InvMixColumnAdditive(s.c3, k.c3);
  }

  lemma ShiftRowsInverse(s: State)
    ensures InvShiftRows(ShiftRows(s)) == s
    ensures ShiftRows(InvShiftRows(s)) == s
  {
  }

  lemma ShiftSubCommute(s: State)
    ensures ShiftRows(SubBytes(s)) == SubBytes(ShiftRows(s))
    ensures InvShiftRows(InvSubBytes(s)) == InvSubBytes(InvShiftRows(s))
  {
    hide S, Si;
  }

  /** Each substitution and shift layer is undone by the other cipher's. */
  lemma LayersInverse(s: State)
    ensures InvShiftRows(InvSubBytes(ShiftRows(SubBytes(s)))) == s
    ensures ShiftRows(SubBytes(InvShiftRows(InvSubBytes(s)))) == s
  {
    hide ShiftRows, InvShiftRows, SubBytes, InvSubBytes;
    ShiftSubCommute(ShiftRows(SubBytes(s)));
    ShiftRowsInverse(SubBytes(s));
    SubBytesInverse(s);
    ShiftSubCommute(InvShiftRows(InvSubBytes(s)));
    ShiftRowsInverse(InvSubBytes(s));
  }

  // ---------------------------------------------------------------- The ciphers undo each other

  /** Round i of deciphering holds the shifted, substituted state of round Nr - 1 - i of enciphering. */
  lemma {:induction false} DecRoundUndoes(keys: RoundKeys, x: State, i: nat)
    requires i < |keys| - 1
    ensures DecRound(InverseKeys(keys), Cipher(keys, x), i) == ShiftRows(SubBytes(EncRound(keys, x, |keys| - 2 - i)))
  {
    hide AddRoundKey, SubBytes, ShiftRows, MixColumns, InvSubBytes, InvShiftRows, InvMixColumns;
    var n := |keys| - 1;
    var y := Cipher(keys, x);
    if i == 0 {
      AddRoundKeyCancels(ShiftRows(SubBytes(EncRound(keys, x, n - 1))), keys[n]);
    } else {
      DecRoundUndoes(keys, x, i - 1);
      var e := EncRound(keys, x, n - i);
      var inner := ShiftRows(SubBytes(EncRound(keys, x, n - 1 - i)));
      LayersInverse(e);
      InvMixColumnsAdditive(MixColumns(inner), keys[n - i]);
      MixColumnsInverse(inner);
      AddRoundKeyCancels(inner, InvMixColumns(keys[n - i]));
    }
  }

  /** Deciphering with the inverse keys undoes enciphering, for any number of rounds. */
  lemma EqInvCipherUndoesCipher(keys: RoundKeys, x: State)
    ensures EqInvCipher(InverseKeys(keys), Cipher(keys, x)) == x
  {
    hide AddRoundKey, SubBytes, ShiftRows, MixColumns, InvSubBytes, InvShiftRows, InvMixColumns;
    DecRoundUndoes(keys, x, |keys| - 2);
    LayersInverse(EncRound(keys, x, 0));
    AddRoundKeyCancels(x, keys[0]);
  }

  lemma {:induction false} EncRoundUndoes(keys: RoundKeys, y: State, i: nat)
    requires i < |keys| - 1
    ensures EncRound(keys, EqInvCipher(InverseKeys(keys), y), i)
         == InvShiftRows(InvSubBytes(DecRound(InverseKeys(keys), y, |keys| - 2 - i)))
  {
    hide AddRoundKey, SubBytes, ShiftRows, MixColumns, InvSubBytes, InvShiftRows, InvMixColumns;
    var n := |keys| - 1;
    var dkeys := InverseKeys(keys);
    if i == 0 {
      AddRoundKeyCancels(InvShiftRows(InvSubBytes(DecRound(dkeys, y, n - 1))), keys[0]);
    } else {
      EncRoundUndoes(keys, y, i - 1);
      var d := DecRound(dkeys, y, n - i);
      var inner := InvShiftRows(InvSubBytes(DecRound(dkeys, y, n - 1 - i)));
      LayersInverse(d);
      InvMixColumnsAdditive(inner, keys[i]);
      MixColumnsInverse(AddRoundKey(inner, keys[i]));
      AddRoundKeyCancels(inner, keys[i]);
    }
  }

  /** Enciphering undoes deciphering with the inverse keys. */
  lemma CipherUndoesEqInvCipher(keys: RoundKeys, y: State)
    ensures Cipher(keys, EqInvCipher(InverseKeys(keys), y)) == y
  {
    hide AddRoundKey, SubBytes, ShiftRows, MixColumns, InvSubBytes, InvShiftRows, InvMixColumns;
    EncRoundUndoes(keys, y, |keys| - 2);
    LayersInverse(DecRound(InverseKeys(keys), y, 0));
    AddRoundKeyCancels(y, keys[|keys| - 1]);
  }

  lemma {:induction false} DecRoundIsInvRound(keys: RoundKeys, y: State, i: nat)
    requires i < |keys| - 1
    ensures DecRound(InverseKeys(keys), y, i) == InvRound(keys, y, i)
  {
    hide AddRoundKey, SubBytes, ShiftRows, MixColumns, InvSubBytes, InvShiftRows, InvMixColumns;
    if i > 0 {
      DecRoundIsInvRound(keys, y, i - 1);
      var d := InvRound(keys, y, i - 1);
      ShiftSubCommute(d);
      InvMixColumnsAdditive(InvSubBytes(InvShiftRows(d)), keys[|keys| - 1 - i]);
    }
  }

  /** The reordered decryption of section 5.3.5 computes the inverse cipher of section 5.3. */
  lemma EqInvCipherIsInvCipher(keys: RoundKeys, y: State)
    ensures EqInvCipher(InverseKeys(keys), y) == InvCipher(keys, y)
  {
    hide AddRoundKey, SubBytes, ShiftRows, MixColumns, InvSubBytes, InvShiftRows, InvMixColumns;
    DecRoundIsInvRound(keys, y, |keys| - 2);
    ShiftSubCommute(InvRound(keys, y, |keys| - 2));
  }
}
