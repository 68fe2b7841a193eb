/** The block cipher of src/common/rijndael-alg-fst.c: word loops over tables that refine the FIPS 197 cipher. */
module Rijndael {
  import opened SBox
  import opened Fips197
  import opened Words

  // ---------------------------------------------------------------- Bytes, words and round keys

  /** A block's bytes fill the state column by column, section 3.4 of FIPS 197. */
  function BlockState(b: seq<bv8>): State
    requires |b| == 16
  {
    State(Column(b[0], b[1], b[2], b[3]), Column(b[4], b[5], b[6], b[7]),
          Column(b[8], b[9], b[10], b[11]), Column(b[12], b[13], b[14], b[15]))
  }

  function StateBytes(s: State): (b: seq<bv8>)
    ensures |b| == 16
  {
    [s.c0.b0, s.c0.b1, s.c0.b2, s.c0.b3, s.c1.b0, s.c1.b1, s.c1.b2, s.c1.b3,
     s.c2.b0, s.c2.b1, s.c2.b2, s.c2.b3, s.c3.b0, s.c3.b1, s.c3.b2, s.c3.b3]
  }

  lemma BlockStateOfBytes(s: State)
    ensures BlockState(StateBytes(s)) == s
  {
  }

  lemma BytesOfBlockState(b: seq<bv8>)
    requires |b| == 16
    ensures StateBytes(BlockState(b)) == b
  {
  }

  /** Round key i of a schedule of words. */
  function RoundKey(w: seq<bv32>, i: nat): State
    requires 4 * i + 4 <= |w|
  {
    Unpack4(w[4 * i], w[4 * i + 1], w[4 * i + 2], w[4 * i + 3])
  }

  function RoundKeysOf(w: seq<bv32>, nr: nat): (keys: RoundKeys)
    requires nr >= 1 && 4 * (nr + 1) <= |w|
    ensures |keys| == nr + 1
  {
    seq(nr + 1, i requires 0 <= i <= nr => RoundKey(w, i))
  }

  function EncryptBlock(keys: RoundKeys, b: seq<bv8>): (c: seq<bv8>)
    requires |b| == 16
    ensures |c| == 16
  {
    StateBytes(Cipher(keys, BlockState(b)))
  }

  function DecryptBlock(dkeys: RoundKeys, b: seq<bv8>): (c: seq<bv8>)
    requires |b| == 16
    ensures |c| == 16
  {
    StateBytes(EqInvCipher(dkeys, BlockState(b)))
  }

  /** The block functions of a key schedule and its inverse undo each other. */
  lemma BlocksInverse(keys: RoundKeys, b: seq<bv8>)
    requires |b| == 16
    ensures DecryptBlock(InverseKeys(keys), EncryptBlock(keys, b)) == b
    ensures EncryptBlock(keys, DecryptBlock(InverseKeys(keys), b)) == b
  {
    hide BlockState, StateBytes;
    var x := BlockState(b);
    BlockStateOfBytes(Cipher(keys, x));
    EqInvCipherUndoesCipher(keys, x);
    BlockStateOfBytes(EqInvCipher(InverseKeys(keys), x));
    CipherUndoesEqInvCipher(keys, x);
    BytesOfBlockState(b);
  }

  // ---------------------------------------------------------------- Whole rounds on words

  lemma EncColumnsRound(s0: bv32, s1: bv32, s2: bv32, s3: bv32, k0: bv32, k1: bv32, k2: bv32, k3: bv32)
    ensures Unpack4(EncColumn(s0, s1, s2, s3, k0), EncColumn(s1, s2, s3, s0, k1),
                    EncColumn(s2, s3, s0, s1, k2), EncColumn(s3, s0, s1, s2, k3))
         == AddRoundKey(MixColumns(ShiftRows(SubBytes(Unpack4(s0, s1, s2, s3)))), Unpack4(k0, k1, k2, k3))
  {
    hide Byte0, Byte1, Byte2, Byte3, S, MixColumn, AddColumns, EncColumn;
    EncColumnMixes(s0, s1, s2, s3, k0);
    EncColumnMixes(s1, s2, s3, s0, k1);
    EncColumnMixes(s2, s3, s0, s1, k2);
    EncColumnMixes(s3, s0, s1, s2, k3);
  }

  lemma EncLastColumnsRound(s0: bv32, s1: bv32, s2: bv32, s3: bv32, k0: bv32, k1: bv32, k2: bv32, k3: bv32)
    ensures Unpack4(EncLastColumn(s0, s1, s2, s3, k0), EncLastColumn(s1, s2, s3, s0, k1),
                    EncLastColumn(s2, s3, s0, s1, k2), EncLastColumn(s3, s0, s1, s2, k3))
         == AddRoundKey(ShiftRows(SubBytes(Unpack4(s0, s1, s2, s3))), Unpack4(k0, k1, k2, k3))
  {
    hide Byte0, Byte1, Byte2, Byte3, S, AddColumns, EncLastColumn;
    EncLastColumnSubstitutes(s0, s1, s2, s3, k0);
    EncLastColumnSubstitutes(s1, s2, s3, s0, k1);
    EncLastColumnSubstitutes(s2, s3, s0, s1, k2);
    EncLastColumnSubstitutes(s3, s0, s1, s2, k3);
  }

  lemma DecColumnsRound(s0: bv32, s1: bv32, s2: bv32, s3: bv32, k0: bv32, k1: bv32, k2: bv32, k3: bv32)
    ensures Unpack4(DecColumn(s0, s3, s2, s1, k0), DecColumn(s1, s0, s3, s2, k1),
                    DecColumn(s2, s1, s0, s3, k2), DecColumn(s3, s2, s1, s0, k3))
         == AddRoundKey(InvMixColumns(InvShiftRows(InvSubBytes(Unpack4(s0, s1, s2, s3)))), Unpack4(k0, k1, k2, k3))
  {
    hide Byte0, Byte1, Byte2, Byte3, Si, InvMixColumn, AddColumns, DecColumn;
    DecColumnUnmixes(s0, s3, s2, s1, k0);
    DecColumnUnmixes(s1, s0, s3, s2, k1);
    DecColumnUnmixes(s2, s1, s0, s3, k2);
    DecColumnUnmixes(s3, s2, s1, s0, k3);
  }

  lemma DecLastColumnsRound(s0: bv32, s1: bv32, s2: bv32, s3: bv32, k0: bv32, k1: bv32, k2: bv32, k3: bv32)
    ensures Unpack4(DecLastColumn(s0, s3, s2, s1, k0), DecLastColumn(s1, s0, s3, s2, k1),
                    DecLastColumn(s2, s1, s0, s3, k2), DecLastColumn(s3, s2, s1, s0, k3))
         == AddRoundKey(InvShiftRows(InvSubBytes(Unpack4(s0, s1, s2, s3))), Unpack4(k0, k1, k2, k3))
  {
    hide Byte0, Byte1, Byte2, Byte3, Si, AddColumns, DecLastColumn;
    DecLastColumnSubstitutes(s0, s3, s2, s1, k0);
    DecLastColumnSubstitutes(s1, s0, s3, s2, k1);
    DecLastColumnSubstitutes(s2, s1, s0, s3, k2);
    DecLastColumnSubstitutes(s3, s2, s1, s0, k3);
  }

  /** GETU32: four bytes, most significant first. */
  function GetU32(p: seq<bv8>, o: nat): bv32
    requires o + 4 <= |p|
  {
    Word(p[o], p[o + 1], p[o + 2], p[o + 3])
  }

  /** A word of the block with the first round key added. */
  function FirstWord(b: seq<bv8>, o: nat, k: bv32): bv32
    requires o + 4 <= |b|
  {
    Xor(GetU32(b, o), k)
  }

  lemma WhitenedWord(b: seq<bv8>, o: nat, k: bv32)
    requires o + 4 <= |b|
    ensures Unpack(FirstWord(b, o, k)) == AddColumns(Column(b[o], b[o + 1], b[o + 2], b[o + 3]), Unpack(k))
  {
    hide Word, Unpack, AddColumns, Xor;
    UnpackPack(Column(b[o], b[o + 1], b[o + 2], b[o + 3]));
    UnpackXor(GetU32(b, o), k);
  }

  /** The first AddRoundKey, on words. */
  lemma WhitenedWords(b: seq<bv8>, k0: bv32, k1: bv32, k2: bv32, k3: bv32)
    requires |b| == 16
    ensures Unpack4(FirstWord(b, 0, k0), FirstWord(b, 4, k1), FirstWord(b, 8, k2), FirstWord(b, 12, k3))
         == AddRoundKey(BlockState(b), Unpack4(k0, k1, k2, k3))
  {
    hide Unpack, AddColumns, FirstWord;
    WhitenedWord(b, 0, k0);
    WhitenedWord(b, 4, k1);
    WhitenedWord(b, 8, k2);
    WhitenedWord(b, 12, k3);
  }

  // ---------------------------------------------------------------- The source's routines

  lemma RoundKeyWords(rk: array<bv32>, i: nat)
    requires 4 * i + 4 <= rk.Length
    ensures RoundKey(rk[..], i) == Unpack4(rk[4 * i], rk[4 * i + 1], rk[4 * i + 2], rk[4 * i + 3])
  {
  }

  /** The four assignments of a full encryption round, with the round key at rk[k..k + 4]. */
  method EncFullRound(rk: array<bv32>, k: nat, s0: bv32, s1: bv32, s2: bv32, s3: bv32, ghost nr: nat, ghost x: State)
    returns (t0: bv32, t1: bv32, t2: bv32, t3: bv32)
    requires k % 4 == 0 && 0 < k / 4 < nr && 4 * (nr + 1) <= rk.Length
    requires Unpack4(s0, s1, s2, s3) == EncRound(RoundKeysOf(rk[..], nr), x, k / 4 - 1)
    ensures Unpack4(t0, t1, t2, t3) == EncRound(RoundKeysOf(rk[..], nr), x, k / 4)
  {
    hide EncColumn, Unpack4, RoundKey, AddRoundKey, MixColumns, ShiftRows, SubBytes;
    t0 := EncColumn(s0, s1, s2, s3, rk[k]);
    t1 := EncColumn(s1, s2, s3, s0, rk[k + 1]);
    t2 := EncColumn(s2, s3, s0, s1, rk[k + 2]);
    t3 := EncColumn(s3, s0, s1, s2, rk[k + 3]);
    EncColumnsRound(s0, s1, s2, s3, rk[k], rk[k + 1], rk[k + 2], rk[k + 3]);
    RoundKeyWords(rk, k / 4);
  }

  /** The four assignments of a full decryption round. */
  method DecFullRound(rk: array<bv32>, k: nat, s0: bv32, s1: bv32, s2: bv32, s3: bv32, ghost nr: nat, ghost x: State)
    returns (t0: bv32, t1: bv32, t2: bv32, t3: bv32)
    requires k % 4 == 0 && 0 < k / 4 < nr && 4 * (nr + 1) <= rk.Length
    requires Unpack4(s0, s1, s2, s3) == DecRound(RoundKeysOf(rk[..], nr), x, k / 4 - 1)
    ensures Unpack4(t0, t1, t2, t3) == DecRound(RoundKeysOf(rk[..], nr), x, k / 4)
  {
    hide DecColumn, Unpack4, RoundKey, AddRoundKey, InvMixColumns, InvShiftRows, InvSubBytes;
    t0 := DecColumn(s0, s3, s2, s1, rk[k]);
    t1 := DecColumn(s1, s0, s3, s2, rk[k + 1]);
    t2 := DecColumn(s2, s1, s0, s3, rk[k + 2]);
    t3 := DecColumn(s3, s2, s1, s0, rk[k + 3]);
    DecColumnsRound(s0, s1, s2, s3, rk[k], rk[k + 1], rk[k + 2], rk[k + 3]);
    RoundKeyWords(rk, k / 4);
  }

  /** The last round, without the mixing of columns. */
  method EncLastRound(rk: array<bv32>, k: nat, t0: bv32, t1: bv32, t2: bv32, t3: bv32, ghost nr: nat, ghost x: State)
    returns (s0: bv32, s1: bv32, s2: bv32, s3: bv32)
    requires nr >= 1 && k == 4 * nr && 4 * (nr + 1) <= rk.Length
    requires Unpack4(t0, t1, t2, t3) == EncRound(RoundKeysOf(rk[..], nr), x, nr - 1)
    ensures Unpack4(s0, s1, s2, s3) == Cipher(RoundKeysOf(rk[..], nr), x)
  {
    hide EncLastColumn, Unpack4, RoundKey, AddRoundKey, MixColumns, ShiftRows, SubBytes;
    s0 := EncLastColumn(t0, t1, t2, t3, rk[k]);
    s1 := EncLastColumn(t1, t2, t3, t0, rk[k + 1]);
    s2 := EncLastColumn(t2, t3, t0, t1, rk[k + 2]);
    s3 := EncLastColumn(t3, t0, t1, t2, rk[k + 3]);
    EncLastColumnsRound(t0, t1, t2, t3, rk[k], rk[k + 1], rk[k + 2], rk[k + 3]);
    RoundKeyWords(rk, nr);
  }

  /** The last round, without the mixing of columns. */
  method DecLastRound(rk: array<bv32>, k: nat, t0: bv32, t1: bv32, t2: bv32, t3: bv32, ghost nr: nat, ghost x: State)
    returns (s0: bv32, s1: bv32, s2: bv32, s3: bv32)
    requires nr >= 1 && k == 4 * nr && 4 * (nr + 1) <= rk.Length
    requires Unpack4(t0, t1, t2, t3) == DecRound(RoundKeysOf(rk[..], nr), x, nr - 1)
    ensures Unpack4(s0, s1, s2, s3) == EqInvCipher(RoundKeysOf(rk[..], nr), x)
  {
    hide DecLastColumn, Unpack4, RoundKey, AddRoundKey, InvMixColumns, InvShiftRows, InvSubBytes;
    s0 := DecLastColumn(t0, t3, t2, t1, rk[k]);
    s1 := DecLastColumn(t1, t0, t3, t2, rk[k + 1]);
    s2 := DecLastColumn(t2, t1, t0, t3, rk[k + 2]);
    s3 := DecLastColumn(t3, t2, t1, t0, rk[k + 3]);
    DecLastColumnsRound(t0, t1, t2, t3, rk[k], rk[k + 1], rk[k + 2], rk[k + 3]);
    RoundKeyWords(rk, nr);
  }

  /** The cipher block mapped to words, with the first round key added. */
  method FirstWords(rk: array<bv32>, b: seq<bv8>) returns (s0: bv32, s1: bv32, s2: bv32, s3: bv32)
    requires |b| == 16 && rk.Length >= 4
    ensures Unpack4(s0, s1, s2, s3) == AddRoundKey(BlockState(b), RoundKey(rk[..], 0))
  {
    hide Unpack4, AddRoundKey, BlockState, FirstWord;
    s0, s1, s2, s3 := FirstWord(b, 0, rk[0]), FirstWord(b, 4, rk[1]), FirstWord(b, 8, rk[2]), FirstWord(b, 12, rk[3]);
    WhitenedWords(b, rk[0], rk[1], rk[2], rk[3]);
  }

  /** p with the elements from o on replaced by b. */
  function Splice<T>(p: seq<T>, o: nat, b: seq<T>): (q: seq<T>)
    requires o + |b| <= |p|
    ensures |q| == |p|
  {
    p[..o] + b + p[o + |b|..]
  }

  lemma SpliceTwice<T>(p: seq<T>, o: nat, a: seq<T>, b: seq<T>)
    requires o + |a| + |b| <= |p|
    ensures Splice(Splice(p, o, a), o + |a|, b) == Splice(p, o, a + b)
  {
  }

  lemma SpliceRead<T>(p: seq<T>, o: nat, b: seq<T>)
    requires o + |b| <= |p|
    ensures Splice(p, o, b)[o..o + |b|] == b
    ensures forall j :: 0 <= j < |b| ==> Splice(p, o, b)[o + j] == b[j]
  {
  }

  function ColumnBytes(c: Column): (b: seq<bv8>)
    ensures |b| == 4
  {
    [c.b0, c.b1, c.b2, c.b3]
  }

  lemma SpliceColumns(p: seq<bv8>, o: nat, c0: Column, c1: Column, c2: Column, c3: Column)
    requires o + 16 <= |p|
    ensures Splice(Splice(Splice(Splice(p, o, ColumnBytes(c0)), o + 4, ColumnBytes(c1)), o + 8, ColumnBytes(c2)),
                   o + 12, ColumnBytes(c3))
         == Splice(p, o, StateBytes(State(c0, c1, c2, c3)))
  {
    var b0, b1, b2, b3 := ColumnBytes(c0), ColumnBytes(c1), ColumnBytes(c2), ColumnBytes(c3);
    assert b0 + b1 + b2 + b3 == StateBytes(State(c0, c1, c2, c3));
    hide Splice, ColumnBytes, StateBytes;
    SpliceTwice(p, o, b0, b1);
    SpliceTwice(p, o, b0 + b1, b2);
    SpliceTwice(p, o, b0 + b1 + b2, b3);
  }

  /** PUTU32: four bytes, most significant first. */
  method PutU32(p: array<bv8>, o: nat, w: bv32)
    requires o + 4 <= p.Length
    modifies p
    ensures p[..] == Splice(old(p[..]), o, ColumnBytes(Unpack(w)))
  {
    hide Byte0, Byte1, Byte2, Byte3;
    p[o] := Byte0(w);
    p[o + 1] := Byte1(w);
    p[o + 2] := Byte2(w);
    p[o + 3] := Byte3(w);
  }

  /** Four words written one after the other are the bytes of their state. */
  method PutBlock(p: array<bv8>, o: nat, w0: bv32, w1: bv32, w2: bv32, w3: bv32)
    requires o + 16 <= p.Length
    modifies p
    ensures p[..] == Splice(old(p[..]), o, StateBytes(Unpack4(w0, w1, w2, w3)))
  {
    hide Unpack, Splice, ColumnBytes, StateBytes;
    PutU32(p, o, w0);
    PutU32(p, o + 4, w1);
    PutU32(p, o + 8, w2);
    PutU32(p, o + 12, w3);
    SpliceColumns(old(p[..]), o, Unpack(w0), Unpack(w1), Unpack(w2), Unpack(w3));
  }

  /**
   * rijndaelEncrypt with its rolled double-round loop. For every Nr of at least 2 it computes
   * the cipher; an odd Nr loses a round to the halving of the counter.
   */
  method RijndaelEncrypt(rk: array<bv32>, nr: nat, pt: array<bv8>, po: nat, ct: array<bv8>, co: nat)
    requires nr >= 2 && 4 * (nr + 1) <= rk.Length
    requires po + 16 <= pt.Length && co + 16 <= ct.Length
    modifies ct
    ensures ct[..] == Splice(old(ct[..]), co, EncryptBlock(RoundKeysOf(rk[..], nr / 2 * 2), old(pt[po..po + 16])))
  {
    hide Unpack4, AddRoundKey, MixColumns, ShiftRows, SubBytes, BlockState, StateBytes, Splice, RoundKey, Cipher;
    ghost var w := rk[..];
    var b := pt[po..po + 16];
    var s0, s1, s2, s3 := FirstWords(rk, b);
    ghost var keys := RoundKeysOf(w, nr / 2 * 2);
    ghost var x := BlockState(b);
    var t0, t1, t2, t3;
    var r := nr / 2;
    var k := 0;
    while true
      invariant 1 <= r <= nr / 2 && k == 8 * (nr / 2 - r)
      invariant Unpack4(s0, s1, s2, s3) == EncRound(keys, x, 2 * (nr / 2 - r))
      modifies {}
      decreases r
    {
      t0, t1, t2, t3 := EncFullRound(rk, k + 4, s0, s1, s2, s3, nr / 2 * 2, x);
      k := k + 8;
      r := r - 1;
      if r == 0 {
        break;
      }
      s0, s1, s2, s3 := EncFullRound(rk, k, t0, t1, t2, t3, nr / 2 * 2, x);
    }
    s0, s1, s2, s3 := EncLastRound(rk, k, t0, t1, t2, t3, nr / 2 * 2, x);
    assert ct[..] == old(ct[..]);
    PutBlock(ct, co, s0, s1, s2, s3);
    assert rk[..] == w;
  }

  /** rijndaelEncrypt as FULL_UNROLL compiles it: thirteen rounds in line, the last four guarded by Nr. */
  method RijndaelEncryptUnrolled(rk: array<bv32>, nr: nat, pt: array<bv8>, po: nat, ct: array<bv8>, co: nat)
    requires nr in {10, 12, 14} && 4 * (nr + 1) <= rk.Length
    requires po + 16 <= pt.Length && co + 16 <= ct.Length
    modifies ct
    ensures ct[..] == Splice(old(ct[..]), co, EncryptBlock(RoundKeysOf(rk[..], nr), old(pt[po..po + 16])))
  {
    hide Unpack4, AddRoundKey, MixColumns, ShiftRows, SubBytes, BlockState, StateBytes, Splice, RoundKey, Cipher;
    ghost var w := rk[..];
    var b := pt[po..po + 16];
    var s0, s1, s2, s3 := FirstWords(rk, b);
    ghost var keys := RoundKeysOf(w, nr);
    ghost var x := BlockState(b);
    var t0, t1, t2, t3;
    t0, t1, t2, t3 := EncFullRound(rk, 4, s0, s1, s2, s3, nr, x);
    s0, s1, s2, s3 := EncFullRound(rk, 8, t0, t1, t2, t3, nr, x);
    t0, t1, t2, t3 := EncFullRound(rk, 12, s0, s1, s2, s3, nr, x);
    s0, s1, s2, s3 := EncFullRound(rk, 16, t0, t1, t2, t3, nr, x);
    t0, t1, t2, t3 := EncFullRound(rk, 20, s0, s1, s2, s3, nr, x);
    s0, s1, s2, s3 := EncFullRound(rk, 24, t0, t1, t2, t3, nr, x);
    t0, t1, t2, t3 := EncFullRound(rk, 28, s0, s1, s2, s3, nr, x);
    s0, s1, s2, s3 := EncFullRound(rk, 32, t0, t1, t2, t3, nr, x);
    t0, t1, t2, t3 := EncFullRound(rk, 36, s0, s1, s2, s3, nr, x);
    if nr > 10 {
      s0, s1, s2, s3 := EncFullRound(rk, 40, t0, t1, t2, t3, nr, x);
      t0, t1, t2, t3 := EncFullRound(rk, 44, s0, s1, s2, s3, nr, x);
      if nr > 12 {
        s0, s1, s2, s3 := EncFullRound(rk, 48, t0, t1, t2, t3, nr, x);
        t0, t1, t2, t3 := EncFullRound(rk, 52, s0, s1, s2, s3, nr, x);
      }
    }
    var k := 4 * nr;
    s0, s1, s2, s3 := EncLastRound(rk, k, t0, t1, t2, t3, nr, x);
    assert ct[..] == old(ct[..]);
    PutBlock(ct, co, s0, s1, s2, s3);
    assert rk[..] == w;
  }

  /** rijndaelDecrypt with its rolled loop: the equivalent inverse cipher, likewise. */
  method RijndaelDecrypt(rk: array<bv32>, nr: nat, ct: array<bv8>, co: nat, pt: array<bv8>, po: nat)
    requires nr >= 2 && 4 * (nr + 1) <= rk.Length
    requires co + 16 <= ct.Length && po + 16 <= pt.Length
    modifies pt
    ensures pt[..] == Splice(old(pt[..]), po, DecryptBlock(RoundKeysOf(rk[..], nr / 2 * 2), old(ct[co..co + 16])))
  {
    hide Unpack4, AddRoundKey, InvMixColumns, InvShiftRows, InvSubBytes;
    hide BlockState, StateBytes, Splice, RoundKey, EqInvCipher;
    ghost var w := rk[..];
    var b := ct[co..co + 16];
    var s0, s1, s2, s3 := FirstWords(rk, b);
    ghost var keys := RoundKeysOf(w, nr / 2 * 2);
    ghost var x := BlockState(b);
    var t0, t1, t2, t3;
    var r := nr / 2;
    var k := 0;
    while true
      invariant 1 <= r <= nr / 2 && k == 8 * (nr / 2 - r)
      invariant Unpack4(s0, s1, s2, s3) == DecRound(keys, x, 2 * (nr / 2 - r))
      modifies {}
      decreases r
    {
      t0, t1, t2, t3 := DecFullRound(rk, k + 4, s0, s1, s2, s3, nr / 2 * 2, x);
      k := k + 8;
      r := r - 1;
      if r == 0 {
        break;
      }
      s0, s1, s2, s3 := DecFullRound(rk, k, t0, t1, t2, t3, nr / 2 * 2, x);
    }
    s0, s1, s2, s3 := DecLastRound(rk, k, t0, t1, t2, t3, nr / 2 * 2, x);
    assert pt[..] == old(pt[..]);
    PutBlock(pt, po, s0, s1, s2, s3);
    assert rk[..] == w;
  }

  /** rijndaelDecrypt as FULL_UNROLL compiles it. */
  method RijndaelDecryptUnrolled(rk: array<bv32>, nr: nat, ct: array<bv8>, co: nat, pt: array<bv8>, po: nat)
    requires nr in {10, 12, 14} && 4 * (nr + 1) <= rk.Length
    requires co + 16 <= ct.Length && po + 16 <= pt.Length
    modifies pt
    ensures pt[..] == Splice(old(pt[..]), po, DecryptBlock(RoundKeysOf(rk[..], nr), old(ct[co..co + 16])))
  {
    hide Unpack4, AddRoundKey, InvMixColumns, InvShiftRows, InvSubBytes;
    hide BlockState, StateBytes, Splice, RoundKey, EqInvCipher;
    ghost var w := rk[..];
    var b := ct[co..co + 16];
    var s0, s1, s2, s3 := FirstWords(rk, b);
    ghost var keys := RoundKeysOf(w, nr);
    ghost var x := BlockState(b);
    var t0, t1, t2, t3;
    t0, t1, t2, t3 := DecFullRound(rk, 4, s0, s1, s2, s3, nr, x);
    s0, s1, s2, s3 := DecFullRound(rk, 8, t0, t1, t2, t3, nr, x);
    t0, t1, t2, t3 := DecFullRound(rk, 12, s0, s1, s2, s3, nr, x);
    s0, s1, s2, s3 := DecFullRound(rk, 16, t0, t1, t2, t3, nr, x);
    t0, t1, t2, t3 := DecFullRound(rk, 20, s0, s1, s2, s3, nr, x);
    s0, s1, s2, s3 := DecFullRound(rk, 24, t0, t1, t2, t3, nr, x);
    t0, t1, t2, t3 := DecFullRound(rk, 28, s0, s1, s2, s3, nr, x);
    s0, s1, s2, s3 := DecFullRound(rk, 32, t0, t1, t2, t3, nr, x);
    t0, t1, t2, t3 := DecFullRound(rk, 36, s0, s1, s2, s3, nr, x);
    if nr > 10 {
      s0, s1, s2, s3 := DecFullRound(rk, 40, t0, t1, t2, t3, nr, x);
      t0, t1, t2, t3 := DecFullRound(rk, 44, s0, s1, s2, s3, nr, x);
      if nr > 12 {
        s0, s1, s2, s3 := DecFullRound(rk, 48, t0, t1, t2, t3, nr, x);
        t0, t1, t2, t3 := DecFullRound(rk, 52, s0, s1, s2, s3, nr, x);
      }
    }
    var k := 4 * nr;
    s0, s1, s2, s3 := DecLastRound(rk, k, t0, t1, t2, t3, nr, x);
    assert pt[..] == old(pt[..]);
    PutBlock(pt, po, s0, s1, s2, s3);
    assert rk[..] == w;
  }
}
