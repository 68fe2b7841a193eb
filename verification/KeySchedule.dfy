/** The key schedules of src/common/rijndael-alg-fst.c: expansion in place, then reversal and unmixing in place. */
module KeySchedule {
  import opened Gf256
  import opened Tables
  import opened SBox
  import opened Fips197
  import opened Words
  import opened Rijndael

  const RCON: seq<bv32> := [
    0x01000000, 0x02000000, 0x04000000, 0x08000000, 0x10000000,
    0x20000000, 0x40000000, 0x80000000, 0x1B000000, 0x36000000]

  /** The number of rounds for a key size, or 0 for a size that is not supported. */
  function Rounds(keyBits: int): nat {
    if keyBits == 128 then 10 else if keyBits == 192 then 12 else if keyBits == 256 then 14 else 0
  }

  /** Six rounds more than the key has words, as section 5 of FIPS 197 asks for. */
  lemma RoundsOf(keyBits: int)
    ensures Rounds(keyBits) == if keyBits in {128, 192, 256} then keyBits / 32 + 6 else 0
  {
  }

  /** The bytes of the key that the expansion reads. */
  function KeyBytes(keyBits: int): nat {
    if keyBits == 128 then 16 else if keyBits == 192 then 24 else 32
  }

  /** The words of the schedule that the expansion writes. */
  function ScheduleWords(keyBits: int): nat {
    if Rounds(keyBits) == 0 then 8 else 4 * (Rounds(keyBits) + 1)
  }

  /** The first n words of w are those of the key expansion. */
  ghost predicate Expanded(w: seq<bv32>, key: seq<bv8>, nk: nat, n: nat)
    requires nk >= 1 && 4 * nk <= |key|
  {
    n <= |w| && forall j :: 0 <= j < n ==> Unpack(w[j]) == KeyWord(key, nk, j)
  }

  lemma EmptyExpansion(w: seq<bv32>, key: seq<bv8>)
    ensures forall nk :: 0 < nk && 4 * nk <= |key| ==> Expanded(w, key, nk, 0)
  {
  }

  lemma ExpandedKeysOf(w: seq<bv32>, key: seq<bv8>, nk: nat, nr: nat)
    requires nk >= 1 && 4 * nk <= |key| && nr >= 1
    requires Expanded(w, key, nk, 4 * (nr + 1))
    ensures RoundKeysOf(w, nr) == ExpandedKeys(key, nk, nr)
  {
    hide KeyWord, Unpack;
  }

  lemma XPowers()
    ensures XPower(0) == 0x01 && XPower(1) == 0x02 && XPower(2) == 0x04 && XPower(3) == 0x08 && XPower(4) == 0x10
    ensures XPower(5) == 0x20 && XPower(6) == 0x40 && XPower(7) == 0x80 && XPower(8) == 0x1b && XPower(9) == 0x36
  {
    assert XPower(2) == 0x04;
    assert XPower(4) == 0x10;
    assert XPower(6) == 0x40;
    assert XPower(8) == 0x1b;
  }

  /** The round constants are the powers of {02} in the leading byte. */
  lemma RconEntry(i: nat)
    requires i < 10
    ensures Unpack(RCON[i]) == Column(XPower(i), 0, 0, 0)
  {
    hide XPower;
    XPowers();
    if i < 5 {
      assert RCON[0] == 0x01000000 && RCON[1] == 0x02000000 && RCON[2] == 0x04000000;
      assert RCON[3] == 0x08000000 && RCON[4] == 0x10000000;
    } else {
      assert RCON[5] == 0x20000000 && RCON[6] == 0x40000000 && RCON[7] == 0x80000000;
      assert RCON[8] == 0x1B000000 && RCON[9] == 0x36000000;
    }
  }

  function RotSubSum(t: bv32, rc: bv32): bv32 {
    Sum(Te4(Byte1(t)) & 0xff000000, Te4(Byte2(t)) & 0x00ff0000,
        Te4(Byte3(t)) & 0x0000ff00, Te4(Byte0(t)) & 0x000000ff, rc)
  }

  /** A word of the schedule that starts a group of Nk words: RotWord, SubWord and the round constant. */
  function RotSubWord(p: bv32, t: bv32, rc: bv32): bv32 {
    Xor(p, RotSubSum(t, rc))
  }

  function SubSum(t: bv32): bv32 {
    Sum(Te4(Byte0(t)) & 0xff000000, Te4(Byte1(t)) & 0x00ff0000,
        Te4(Byte2(t)) & 0x0000ff00, Te4(Byte3(t)) & 0x000000ff, 0)
  }

  /** The extra SubWord that 256-bit keys apply in the middle of a group. */
  function SubWord(p: bv32, t: bv32): bv32 {
    Xor(p, SubSum(t))
  }

  lemma UnpackZero()
    ensures Unpack(0) == Column(0, 0, 0, 0)
  {
  }

  lemma RotSubSumColumn(t: bv32, rc: bv32)
    ensures Unpack(RotSubSum(t, rc)) == AddColumns(SubColumn(RotColumn(Unpack(t))), Unpack(rc))
  {
    hide Sum, S, Te4, Word, Byte0, Byte1, Byte2, Byte3, AddColumns;
    Te4Entry(Byte0(t));
    Te4Entry(Byte1(t));
    Te4Entry(Byte2(t));
    Te4Entry(Byte3(t));
    UnpackMasked(S(Byte1(t)), S(Byte2(t)), S(Byte3(t)), S(Byte0(t)), rc);
  }

  lemma RotSubWordColumns(p: bv32, t: bv32, rc: bv32)
    ensures Unpack(RotSubWord(p, t, rc))
         == AddColumns(Unpack(p), AddColumns(SubColumn(RotColumn(Unpack(t))), Unpack(rc)))
  {
    hide RotSubSum, Xor, Unpack, AddColumns, SubColumn, RotColumn;
    RotSubSumColumn(t, rc);
    UnpackXor(p, RotSubSum(t, rc));
  }

  lemma AddZeroColumn(u: Column)
    ensures AddColumns(u, Column(0, 0, 0, 0)) == u
  {
    hide Add;
    AddZero(u.b0);
    AddZero(u.b1);
    AddZero(u.b2);
    AddZero(u.b3);
  }

  lemma SubSumColumn(t: bv32)
    ensures Unpack(SubSum(t)) == AddColumns(SubColumn(Unpack(t)), Unpack(0))
  {
    hide Sum, S, Te4, Word, Byte0, Byte1, Byte2, Byte3, AddColumns;
    Te4Entry(Byte0(t));
    Te4Entry(Byte1(t));
    Te4Entry(Byte2(t));
    Te4Entry(Byte3(t));
    UnpackMasked(S(Byte0(t)), S(Byte1(t)), S(Byte2(t)), S(Byte3(t)), 0);
  }

  lemma SubWordColumns(p: bv32, t: bv32)
    ensures Unpack(SubWord(p, t)) == AddColumns(Unpack(p), SubColumn(Unpack(t)))
  {
    hide SubSum, Xor, Unpack, AddColumns, SubColumn;
    UnpackZero();
    SubSumColumn(t);
    AddZeroColumn(SubColumn(Unpack(t)));
    UnpackXor(p, SubSum(t));
  }

  // ---------------------------------------------------------------- Expansion

  /** rk[n] = GETU32(cipherKey + 4 * n), whatever the key size. */
  method PutKeyBytes(rk: array<bv32>, key: seq<bv8>, n: nat)
    requires n < rk.Length && n < 8 && 4 * n + 4 <= |key|
    requires forall nk :: n < nk && 4 * nk <= |key| ==> Expanded(rk[..], key, nk, n)
    modifies rk
    ensures forall nk :: n < nk && 4 * nk <= |key| ==> Expanded(rk[..], key, nk, n + 1)
    ensures forall j :: n < j < rk.Length ==> rk[j] == old(rk[j])
  {
    hide Unpack, Word;
    UnpackPack(Column(key[4 * n], key[4 * n + 1], key[4 * n + 2], key[4 * n + 3]));
    ghost var w := rk[..];
    rk[n] := GetU32(key, 4 * n);
    forall nk | n < nk && 4 * nk <= |key|
      ensures Expanded(rk[..], key, nk, n + 1)
    {
      assert Expanded(w, key, nk, n);
      assert rk[..] == w[n := GetU32(key, 4 * n)];
    }
  }

  /** rk[n] = rk[n - nk] ^ rk[n - 1]. */
  method PutXorWord(rk: array<bv32>, ghost key: seq<bv8>, nk: nat, n: nat)
    requires nk in {4, 6, 8} && 4 * nk <= |key| && nk <= n < rk.Length
    requires n % nk != 0 && (nk == 8 ==> n % nk != 4)
    requires Expanded(rk[..], key, nk, n)
    modifies rk
    ensures Expanded(rk[..], key, nk, n + 1)
    ensures forall j :: n < j < rk.Length ==> rk[j] == old(rk[j])
  {
    hide Unpack, Xor, AddColumns, SubColumn, RotColumn;
    UnpackXor(rk[n - nk], rk[n - 1]);
    assert Unpack(rk[..][n - 1]) == KeyWord(key, nk, n - 1);
    assert Unpack(rk[..][n - nk]) == KeyWord(key, nk, n - nk);
    rk[n] := Xor(rk[n - nk], rk[n - 1]);
  }

  /** rk[n] from rk[n - nk] and the rotated, substituted rk[n - 1]. */
  method PutRotSubWord(rk: array<bv32>, ghost key: seq<bv8>, nk: nat, n: nat, i: nat)
    requires nk in {4, 6, 8} && 4 * nk <= |key| && nk <= n < rk.Length
    requires n % nk == 0 && n / nk == i + 1 && i < 10
    requires Expanded(rk[..], key, nk, n)
    modifies rk
    ensures Expanded(rk[..], key, nk, n + 1)
    ensures forall j :: n < j < rk.Length ==> rk[j] == old(rk[j])
  {
    hide Unpack, RotSubWord, AddColumns, SubColumn, RotColumn, XPower;
    RotSubWordColumns(rk[n - nk], rk[n - 1], RCON[i]);
    RconEntry(i);
    assert Unpack(rk[..][n - 1]) == KeyWord(key, nk, n - 1);
    assert Unpack(rk[..][n - nk]) == KeyWord(key, nk, n - nk);
    rk[n] := RotSubWord(rk[n - nk], rk[n - 1], RCON[i]);
  }

  /** rk[n] from rk[n - 8] and the substituted rk[n - 1]. */
  method PutSubWord(rk: array<bv32>, ghost key: seq<bv8>, n: nat)
    requires 32 <= |key| && 8 <= n < rk.Length && n % 8 == 4
    requires Expanded(rk[..], key, 8, n)
    modifies rk
    ensures Expanded(rk[..], key, 8, n + 1)
    ensures forall j :: n < j < rk.Length ==> rk[j] == old(rk[j])
  {
    hide Unpack, SubWord, AddColumns, SubColumn;
    SubWordColumns(rk[n - 8], rk[n - 1]);
    assert Unpack(rk[..][n - 1]) == KeyWord(key, 8, n - 1);
    assert Unpack(rk[..][n - 8]) == KeyWord(key, 8, n - 8);
    rk[n] := SubWord(rk[n - 8], rk[n - 1]);
  }

  /** The loop for 128-bit keys: strides of four words. */
  method Expand128(rk: array<bv32>, key: seq<bv8>)
    requires 16 <= |key| && 44 <= rk.Length && Expanded(rk[..], key, 4, 4)
    modifies rk
    ensures Expanded(rk[..], key, 4, 44)
    ensures forall j :: 44 <= j < rk.Length ==> rk[j] == old(rk[j])
  {
    hide Expanded;
    var i, k := 0, 0;
    while true
      invariant 0 <= i < 10 && k == 4 * i
      invariant Expanded(rk[..], key, 4, k + 4)
      invariant forall j :: 44 <= j < rk.Length ==> rk[j] == old(rk[j])
      decreases 10 - i
    {
      PutRotSubWord(rk, key, 4, k + 4, i);
      PutXorWord(rk, key, 4, k + 5);
      PutXorWord(rk, key, 4, k + 6);
      PutXorWord(rk, key, 4, k + 7);
      i := i + 1;
      if i == 10 {
        return;
      }
      k := k + 4;
    }
  }

  /** The loop for 192-bit keys: strides of six words, the last one cut after four. */
  method Expand192(rk: array<bv32>, key: seq<bv8>)
    requires 24 <= |key| && 52 <= rk.Length && Expanded(rk[..], key, 6, 6)
    modifies rk
    ensures Expanded(rk[..], key, 6, 52)
    ensures forall j :: 52 <= j < rk.Length ==> rk[j] == old(rk[j])
  {
    hide Expanded;
    var i, k := 0, 0;
    while true
      invariant 0 <= i < 8 && k == 6 * i
      invariant Expanded(rk[..], key, 6, k + 6)
      invariant forall j :: 52 <= j < rk.Length ==> rk[j] == old(rk[j])
      decreases 8 - i
    {
      PutRotSubWord(rk, key, 6, k + 6, i);
      PutXorWord(rk, key, 6, k + 7);
      PutXorWord(rk, key, 6, k + 8);
      PutXorWord(rk, key, 6, k + 9);
      i := i + 1;
      if i == 8 {
        return;
      }
      PutXorWord(rk, key, 6, k + 10);
      PutXorWord(rk, key, 6, k + 11);
      k := k + 6;
    }
  }

  /** The loop for 256-bit keys: strides of eight words, the last one cut after four. */
  method Expand256(rk: array<bv32>, key: seq<bv8>)
    requires 32 <= |key| && 60 <= rk.Length && Expanded(rk[..], key, 8, 8)
    modifies rk
    ensures Expanded(rk[..], key, 8, 60)
    ensures forall j :: 60 <= j < rk.Length ==> rk[j] == old(rk[j])
  {
    hide Expanded;
    var i, k := 0, 0;
    while true
      invariant 0 <= i < 7 && k == 8 * i
      invariant Expanded(rk[..], key, 8, k + 8)
      invariant forall j :: 60 <= j < rk.Length ==> rk[j] == old(rk[j])
      decreases 7 - i
    {
      PutRotSubWord(rk, key, 8, k + 8, i);
      PutXorWord(rk, key, 8, k + 9);
      PutXorWord(rk, key, 8, k + 10);
      PutXorWord(rk, key, 8, k + 11);
      i := i + 1;
      if i == 7 {
        return;
      }
      PutSubWord(rk, key, k + 12);
      PutXorWord(rk, key, 8, k + 13);
      PutXorWord(rk, key, 8, k + 14);
      PutXorWord(rk, key, 8, k + 15);
      k := k + 8;
    }
  }

  /** rijndaelKeySetupEnc: the round count, and a schedule that FIPS 197 calls for. */
  method RijndaelKeySetupEnc(rk: array<bv32>, key: seq<bv8>, keyBits: int) returns (nr: nat)
    requires KeyBytes(keyBits) <= |key| && ScheduleWords(keyBits) <= rk.Length
    modifies rk
    ensures nr == Rounds(keyBits)
    ensures nr > 0 ==> RoundKeysOf(rk[..], nr) == ExpandedKeys(key, keyBits / 32, nr)
    ensures nr == 0 ==> Expanded(rk[..], key, 8, 8)
    ensures forall j :: ScheduleWords(keyBits) <= j < rk.Length ==> rk[j] == old(rk[j])
  {
    hide Unpack, KeyWord, RoundKeysOf, ExpandedKeys, Expanded;
    EmptyExpansion(rk[..], key);
    PutKeyBytes(rk, key, 0);
    PutKeyBytes(rk, key, 1);
    PutKeyBytes(rk, key, 2);
    PutKeyBytes(rk, key, 3);
    if keyBits == 128 {
      Expand128(rk, key);
      ExpandedKeysOf(rk[..], key, 4, 10);
      return 10;
    }
    PutKeyBytes(rk, key, 4);
    PutKeyBytes(rk, key, 5);
    if keyBits == 192 {
      Expand192(rk, key);
      ExpandedKeysOf(rk[..], key, 6, 12);
      return 12;
    }
    PutKeyBytes(rk, key, 6);
    PutKeyBytes(rk, key, 7);
    assert Expanded(rk[..], key, 8, 8);
    if keyBits == 256 {
      Expand256(rk, key);
      ExpandedKeysOf(rk[..], key, 8, 14);
      return 14;
    }
    nr := 0;
  }

  // ---------------------------------------------------------------- Reversal and unmixing

  /** A word of an inner round key, through the tables Td0..Td3 applied to the S-box. */
  function UnmixWord(w: bv32): bv32 {
    Sum(Td0((Te4(Byte0(w)) & 0xff) as bv8), Td1((Te4(Byte1(w)) & 0xff) as bv8),
        Td2((Te4(Byte2(w)) & 0xff) as bv8), Td3((Te4(Byte3(w)) & 0xff) as bv8), 0)
  }

  /** Looking up Td_k at the substituted bytes unmixes the word, the S-boxes cancelling out. */
  lemma UnmixWordIsInvMixColumn(w: bv32)
    ensures Unpack(UnmixWord(w)) == InvMixColumn(Unpack(w))
  {
    UnpackZero();
    hide Sum, Si, Te4, Td0, Td1, Td2, Td3, Byte0, Byte1, Byte2, Byte3, AddColumns, InvMixColumn;
    var x0, x1, x2, x3 := S(Byte0(w)), S(Byte1(w)), S(Byte2(w)), S(Byte3(w));
    UnpackSum(Td0(x0), Td1(x1), Td2(x2), Td3(x3), 0);
    TableUnmixes(x0, x1, x2, x3);
    SiOfS(Byte0(w));
    SiOfS(Byte1(w));
    SiOfS(Byte2(w));
    SiOfS(Byte3(w));
    AddZeroColumn(InvMixColumn(Unpack(w)));
  }

  /** Round keys of schedules that differ in the exchange of the words at 4p and 4q. */
  lemma SwappedRoundKeys(v: seq<bv32>, w: seq<bv32>, p: nat, q: nat, g: nat)
    requires |v| == |w| && p < q && 4 * q + 4 <= |w| && 4 * g + 4 <= |w|
    requires v[4 * p] == w[4 * q] && v[4 * p + 1] == w[4 * q + 1]
    requires v[4 * p + 2] == w[4 * q + 2] && v[4 * p + 3] == w[4 * q + 3]
    requires v[4 * q] == w[4 * p] && v[4 * q + 1] == w[4 * p + 1]
    requires v[4 * q + 2] == w[4 * p + 2] && v[4 * q + 3] == w[4 * p + 3]
    requires forall m :: 0 <= m < |w| && !(4 * p <= m < 4 * p + 4) && !(4 * q <= m < 4 * q + 4) ==> v[m] == w[m]
    ensures RoundKey(v, g) == RoundKey(w, if g == p then q else if g == q then p else g)
  {
    hide Unpack4;
  }

  method SwapWords(rk: array<bv32>, i: nat, j: nat)
    requires i < j < rk.Length
    modifies rk
    ensures rk[i] == old(rk[j]) && rk[j] == old(rk[i])
    ensures forall m :: 0 <= m < rk.Length && m != i && m != j ==> rk[m] == old(rk[m])
  {
    var temp := rk[i];
    rk[i] := rk[j];
    rk[j] := temp;
  }

  /** The four swaps of the reversal loop, at round keys p and q. */
  method SwapRoundKeys(rk: array<bv32>, i: nat, j: nat, ghost p: nat, ghost q: nat, ghost nr: nat)
    requires i == 4 * p && j == 4 * q && p < q <= nr && 4 * (nr + 1) <= rk.Length
    modifies rk
    ensures var keys := RoundKeysOf(old(rk[..]), nr); RoundKeysOf(rk[..], nr) == keys[p := keys[q]][q := keys[p]]
    ensures forall m :: 4 * nr + 4 <= m < rk.Length ==> rk[m] == old(rk[m])
  {
    hide RoundKey;
    SwapWords(rk, i, j);
    SwapWords(rk, i + 1, j + 1);
    SwapWords(rk, i + 2, j + 2);
    SwapWords(rk, i + 3, j + 3);
    ghost var v, w := rk[..], old(rk[..]);
    forall g | 0 <= g <= nr {
      SwappedRoundKeys(v, w, p, q, g);
    }
  }

  /** The keys after p swaps of the reversal loop. */
  function Reversing(keys: RoundKeys, p: nat): (r: RoundKeys)
    ensures |r| == |keys|
  {
    seq(|keys|, g requires 0 <= g < |keys| =>
      if g < p || g >= |keys| - p then keys[|keys| - 1 - g] else keys[g])
  }

  lemma StartReversing(keys: RoundKeys)
    ensures Reversing(keys, 0) == keys
  {
  }

  lemma ReversingStep(keys: RoundKeys, p: nat, q: nat)
    requires p < q && p + q == |keys| - 1
    ensures var r := Reversing(keys, p); r[p := r[q]][q := r[p]] == Reversing(keys, p + 1)
  {
  }

  /** The keys after the unmixing loop has passed the ones below i. */
  function Unmixing(keys: RoundKeys, i: nat): (r: RoundKeys)
    ensures |r| == |keys|
  {
    seq(|keys|, g requires 0 <= g < |keys| => if 0 < g < i then InvMixColumns(keys[g]) else keys[g])
  }

  lemma StartUnmixing(keys: RoundKeys)
    ensures Unmixing(keys, 1) == keys
  {
  }

  lemma UnmixingStep(keys: RoundKeys, i: nat)
    requires 1 <= i < |keys|
    ensures var r := Unmixing(keys, i); r[i := InvMixColumns(r[i])] == Unmixing(keys, i + 1)
  {
    hide InvMixColumns;
  }

  lemma ReversedAndUnmixed(keys: RoundKeys, p: nat)
    requires 2 * p >= |keys| - 1
    ensures Unmixing(Reversing(keys, p), |keys| - 1) == InverseKeys(keys)
  {
    hide InvMixColumns;
  }

  /** Round keys of schedules that differ in the unmixing of round key i. */
  lemma UnmixedRoundKeys(v: seq<bv32>, w: seq<bv32>, i: nat, g: nat)
    requires |v| == |w| && 4 * i + 4 <= |w| && 4 * g + 4 <= |w|
    requires v[4 * i] == UnmixWord(w[4 * i]) && v[4 * i + 1] == UnmixWord(w[4 * i + 1])
    requires v[4 * i + 2] == UnmixWord(w[4 * i + 2]) && v[4 * i + 3] == UnmixWord(w[4 * i + 3])
    requires forall m :: 0 <= m < |w| && !(4 * i <= m < 4 * i + 4) ==> v[m] == w[m]
    ensures RoundKey(v, g) == if g == i then InvMixColumns(RoundKey(w, g)) else RoundKey(w, g)
  {
    hide UnmixWord, Unpack, InvMixColumn;
    UnmixWordIsInvMixColumn(w[4 * i]);
    UnmixWordIsInvMixColumn(w[4 * i + 1]);
    UnmixWordIsInvMixColumn(w[4 * i + 2]);
    UnmixWordIsInvMixColumn(w[4 * i + 3]);
  }

  /** rk[0..3] = the unmixed words, at the pointer k. */
  method UnmixRoundKey(rk: array<bv32>, k: nat, ghost i: nat, ghost nr: nat)
    requires k == 4 * i && 1 <= i <= nr && 4 * (nr + 1) <= rk.Length
    modifies rk
    ensures var keys := RoundKeysOf(old(rk[..]), nr); RoundKeysOf(rk[..], nr) == keys[i := InvMixColumns(keys[i])]
    ensures forall m :: 4 * nr + 4 <= m < rk.Length ==> rk[m] == old(rk[m])
  {
    hide UnmixWord, RoundKey, InvMixColumns;
    rk[k] := UnmixWord(rk[k]);
    rk[k + 1] := UnmixWord(rk[k + 1]);
    rk[k + 2] := UnmixWord(rk[k + 2]);
    rk[k + 3] := UnmixWord(rk[k + 3]);
    ghost var v, w := rk[..], old(rk[..]);
    forall g | 0 <= g <= nr {
      UnmixedRoundKeys(v, w, i, g);
    }
  }

  /** rijndaelKeySetupDec: the schedule of the equivalent inverse cipher, section 5.3.5 of FIPS 197. */
  method RijndaelKeySetupDec(rk: array<bv32>, key: seq<bv8>, keyBits: int) returns (nr: nat)
    requires KeyBytes(keyBits) <= |key| && ScheduleWords(keyBits) <= rk.Length
    modifies rk
    ensures nr == Rounds(keyBits)
    ensures nr > 0 ==> RoundKeysOf(rk[..], nr) == InverseKeys(ExpandedKeys(key, keyBits / 32, nr))
    ensures nr == 0 ==> Expanded(rk[..], key, 8, 8)
    ensures forall j :: ScheduleWords(keyBits) <= j < rk.Length ==> rk[j] == old(rk[j])
  {
    hide RoundKeysOf, ExpandedKeys, Expanded, Reversing, Unmixing;
    nr := RijndaelKeySetupEnc(rk, key, keyBits);
    if nr == 0 {
      return;
    }
    ghost var keys := RoundKeysOf(rk[..], nr);
    var i, j := 0, 4 * nr;
    ghost var p := 0;
    StartReversing(keys);
    while i < j
      invariant i == 4 * p && j == 4 * (nr - p) && p <= nr
      invariant RoundKeysOf(rk[..], nr) == Reversing(keys, p)
      invariant forall m :: 4 * nr + 4 <= m < rk.Length ==> rk[m] == old(rk[m])
      decreases j - i
    {
      SwapRoundKeys(rk, i, j, p, nr - p, nr);
      ReversingStep(keys, p, nr - p);
      i, j := i + 4, j - 4;
      p := p + 1;
    }
    ghost var reversed := Reversing(keys, p);
    StartUnmixing(reversed);
    i := 1;
    var k := 0;
    while i < nr
      invariant 1 <= i <= nr && k == 4 * (i - 1)
      invariant RoundKeysOf(rk[..], nr) == Unmixing(reversed, i)
      invariant forall m :: 4 * nr + 4 <= m < rk.Length ==> rk[m] == old(rk[m])
    {
      k := k + 4;
      UnmixRoundKey(rk, k, i, nr);
      UnmixingStep(reversed, i);
      i := i + 1;
    }
    ReversedAndUnmixed(keys, p);
  }
}
