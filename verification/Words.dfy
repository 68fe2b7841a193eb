/** Words as columns: the byte accesses of the source and the T-table forms of the round transformations. */
module Words {
  import opened Gf256
  import opened Tables
  import opened SBox
  import opened Fips197

  function Byte0(w: bv32): bv8 {
    (w >> 24) as bv8
  }

  function Byte1(w: bv32): bv8 {
    ((w >> 16) & 0xff) as bv8
  }

  function Byte2(w: bv32): bv8 {
    ((w >> 8) & 0xff) as bv8
  }

  function Byte3(w: bv32): bv8 {
    (w & 0xff) as bv8
  }

  function Unpack(w: bv32): Column {
    Column(Byte0(w), Byte1(w), Byte2(w), Byte3(w))
  }

  function Pack(c: Column): bv32 {
    Word(c.b0, c.b1, c.b2, c.b3)
  }

  function Unpack4(w0: bv32, w1: bv32, w2: bv32, w3: bv32): State {
    State(Unpack(w0), Unpack(w1), Unpack(w2), Unpack(w3))
  }

  lemma UnpackPack(c: Column)
    ensures Unpack(Pack(c)) == c
  {
  }

  function Xor(w: bv32, v: bv32): bv32 {
    w ^ v
  }

  lemma UnpackXor(w: bv32, v: bv32)
    ensures Unpack(Xor(w, v)) == AddColumns(Unpack(w), Unpack(v))
  {
  }

  /** The exclusive or of four words and a key word. */
  function Sum(a: bv32, b: bv32, c: bv32, d: bv32, k: bv32): bv32 {
    a ^ b ^ c ^ d ^ k
  }

  lemma FirstByteOfSum(a: bv32, b: bv32, c: bv32, d: bv32, k: bv32)
    ensures Byte0(Sum(a, b, c, d, k)) == Add(Add(Add(Byte0(a), Byte0(b)), Add(Byte0(c), Byte0(d))), Byte0(k))
  {
  }

  lemma SecondByteOfSum(a: bv32, b: bv32, c: bv32, d: bv32, k: bv32)
    ensures Byte1(Sum(a, b, c, d, k)) == Add(Add(Add(Byte1(a), Byte1(b)), Add(Byte1(c), Byte1(d))), Byte1(k))
  {
  }

  lemma ThirdByteOfSum(a: bv32, b: bv32, c: bv32, d: bv32, k: bv32)
    ensures Byte2(Sum(a, b, c, d, k)) == Add(Add(Add(Byte2(a), Byte2(b)), Add(Byte2(c), Byte2(d))), Byte2(k))
  {
  }

  lemma FourthByteOfSum(a: bv32, b: bv32, c: bv32, d: bv32, k: bv32)
    ensures Byte3(Sum(a, b, c, d, k)) == Add(Add(Add(Byte3(a), Byte3(b)), Add(Byte3(c), Byte3(d))), Byte3(k))
  {
  }

  /** The sum of four table words and a key word, column by column. */
  lemma UnpackSum(a: bv32, b: bv32, c: bv32, d: bv32, k: bv32)
    ensures Unpack(Sum(a, b, c, d, k))
         == AddColumns(AddColumns(AddColumns(Unpack(a), Unpack(b)), AddColumns(Unpack(c), Unpack(d))), Unpack(k))
  {
    hide Byte0, Byte1, Byte2, Byte3, Add, Sum;
    FirstByteOfSum(a, b, c, d, k);
    SecondByteOfSum(a, b, c, d, k);
    ThirdByteOfSum(a, b, c, d, k);
    FourthByteOfSum(a, b, c, d, k);
  }

  // ---------------------------------------------------------------- One word of a round

  /** A word of a full encryption round: four table lookups and a key word. */
  function EncColumn(a: bv32, b: bv32, c: bv32, d: bv32, k: bv32): bv32 {
    Sum(Te0(Byte0(a)), Te1(Byte1(b)), Te2(Byte2(c)), Te3(Byte3(d)), k)
  }

  /** A word of a full decryption round. */
  function DecColumn(a: bv32, b: bv32, c: bv32, d: bv32, k: bv32): bv32 {
    Sum(Td0(Byte0(a)), Td1(Byte1(b)), Td2(Byte2(c)), Td3(Byte3(d)), k)
  }

  /** A word of the last encryption round. */
  function EncLastColumn(a: bv32, b: bv32, c: bv32, d: bv32, k: bv32): bv32 {
    Sum(Te4(Byte0(a)) & 0xff000000, Te4(Byte1(b)) & 0x00ff0000,
        Te4(Byte2(c)) & 0x0000ff00, Te4(Byte3(d)) & 0x000000ff, k)
  }

  /** A word of the last decryption round. */
  function DecLastColumn(a: bv32, b: bv32, c: bv32, d: bv32, k: bv32): bv32 {
    Sum(Td4(Byte0(a)) & 0xff000000, Td4(Byte1(b)) & 0x00ff0000,
        Td4(Byte2(c)) & 0x0000ff00, Td4(Byte3(d)) & 0x000000ff, k)
  }

  /** The words of Te0 to Te3 add up to a MixColumns product. */
  lemma TableMixes(x0: bv8, x1: bv8, x2: bv8, x3: bv8)
    ensures AddColumns(AddColumns(Unpack(Te0(x0)), Unpack(Te1(x1))), AddColumns(Unpack(Te2(x2)), Unpack(Te3(x3))))
         == MixColumn(Column(S(x0), S(x1), S(x2), S(x3)))
  {
    hide Unpack, Add, Mul, S, Te0, Te1, Te2, Te3, Word;
    var s0, s1, s2, s3 := S(x0), S(x1), S(x2), S(x3);
    Te0Entry(x0);
    Te1Entry(x1);
    Te2Entry(x2);
    Te3Entry(x3);
    UnpackPack(Column(Mul(0x02, s0), s0, s0, Mul(0x03, s0)));
    UnpackPack(Column(Mul(0x03, s1), Mul(0x02, s1), s1, s1));
    UnpackPack(Column(s2, Mul(0x03, s2), Mul(0x02, s2), s2));
    UnpackPack(Column(s3, s3, Mul(0x03, s3), Mul(0x02, s3)));
    AddRotate(Mul(0x02, s1), Mul(0x03, s2), s3, s0);
    AddCommutative(Add(Mul(0x02, s2), Mul(0x03, s3)), Add(s0, s1));
    AddRotate(Mul(0x03, s0), s1, s2, Mul(0x02, s3));
  }

  lemma EncColumnMixes(a: bv32, b: bv32, c: bv32, d: bv32, k: bv32)
    ensures Unpack(EncColumn(a, b, c, d, k))
         == AddColumns(MixColumn(Column(S(Byte0(a)), S(Byte1(b)), S(Byte2(c)), S(Byte3(d)))), Unpack(k))
  {
    hide Sum, Byte0, Byte1, Byte2, Byte3, Unpack, AddColumns, MixColumn, S, Te0, Te1, Te2, Te3;
    UnpackSum(Te0(Byte0(a)), Te1(Byte1(b)), Te2(Byte2(c)), Te3(Byte3(d)), k);
    TableMixes(Byte0(a), Byte1(b), Byte2(c), Byte3(d));
  }

  /** The words of Td0 to Td3 add up to an InvMixColumns product. */
  lemma TableUnmixes(x0: bv8, x1: bv8, x2: bv8, x3: bv8)
    ensures AddColumns(AddColumns(Unpack(Td0(x0)), Unpack(Td1(x1))), AddColumns(Unpack(Td2(x2)), Unpack(Td3(x3))))
         == InvMixColumn(Column(Si(x0), Si(x1), Si(x2), Si(x3)))
  {
    hide Unpack, Add, Mul, Si, Td0, Td1, Td2, Td3, Word;
    var s0, s1, s2, s3 := Si(x0), Si(x1), Si(x2), Si(x3);
    Td0Entry(x0);
    Td1Entry(x1);
    Td2Entry(x2);
    Td3Entry(x3);
    UnpackPack(Column(Mul(0x0e, s0), Mul(0x09, s0), Mul(0x0d, s0), Mul(0x0b, s0)));
    UnpackPack(Column(Mul(0x0b, s1), Mul(0x0e, s1), Mul(0x09, s1), Mul(0x0d, s1)));
    UnpackPack(Column(Mul(0x0d, s2), Mul(0x0b, s2), Mul(0x0e, s2), Mul(0x09, s2)));
    UnpackPack(Column(Mul(0x09, s3), Mul(0x0d, s3), Mul(0x0b, s3), Mul(0x0e, s3)));
    AddRotate(Mul(0x0e, s1), Mul(0x0b, s2), Mul(0x0d, s3), Mul(0x09, s0));
    AddCommutative(Add(Mul(0x0e, s2), Mul(0x0b, s3)), Add(Mul(0x0d, s0), Mul(0x09, s1)));
    AddRotate(Mul(0x0b, s0), Mul(0x0d, s1), Mul(0x09, s2), Mul(0x0e, s3));
  }

  lemma DecColumnUnmixes(a: bv32, b: bv32, c: bv32, d: bv32, k: bv32)
    ensures Unpack(DecColumn(a, b, c, d, k))
         == AddColumns(InvMixColumn(Column(Si(Byte0(a)), Si(Byte1(b)), Si(Byte2(c)), Si(Byte3(d)))), Unpack(k))
  {
    hide Sum, Byte0, Byte1, Byte2, Byte3, Unpack, AddColumns, InvMixColumn, Si, Td0, Td1, Td2, Td3;
    UnpackSum(Td0(Byte0(a)), Td1(Byte1(b)), Td2(Byte2(c)), Td3(Byte3(d)), k);
    TableUnmixes(Byte0(a), Byte1(b), Byte2(c), Byte3(d));
  }

  lemma MaskedWord(x: bv8)
    ensures Word(x, x, x, x) & 0xff000000 == Word(x, 0, 0, 0)
    ensures Word(x, x, x, x) & 0x00ff0000 == Word(0, x, 0, 0)
    ensures Word(x, x, x, x) & 0x0000ff00 == Word(0, 0, x, 0)
    ensures Word(x, x, x, x) & 0x000000ff == Word(0, 0, 0, x)
  {
  }

  lemma AddSingleBytes(x0: bv8, x1: bv8, x2: bv8, x3: bv8)
    ensures AddColumns(AddColumns(Column(x0, 0, 0, 0), Column(0, x1, 0, 0)),
                       AddColumns(Column(0, 0, x2, 0), Column(0, 0, 0, x3)))
         == Column(x0, x1, x2, x3)
  {
    hide Add;
    AddZero(0);
    AddZero(x0);
    AddZero(x1);
    AddZero(x2);
    AddZero(x3);
  }

  lemma UnpackMasked(x0: bv8, x1: bv8, x2: bv8, x3: bv8, k: bv32)
    ensures Unpack(Sum(Word(x0, x0, x0, x0) & 0xff000000, Word(x1, x1, x1, x1) & 0x00ff0000,
                    Word(x2, x2, x2, x2) & 0x0000ff00, Word(x3, x3, x3, x3) & 0x000000ff, k))
         == AddColumns(Column(x0, x1, x2, x3), Unpack(k))
  {
    hide Sum, Word, Unpack, AddColumns;
    UnpackSum(Word(x0, x0, x0, x0) & 0xff000000, Word(x1, x1, x1, x1) & 0x00ff0000,
              Word(x2, x2, x2, x2) & 0x0000ff00, Word(x3, x3, x3, x3) & 0x000000ff, k);
    MaskedWord(x0);
    MaskedWord(x1);
    MaskedWord(x2);
    MaskedWord(x3);
    UnpackPack(Column(x0, 0, 0, 0));
    UnpackPack(Column(0, x1, 0, 0));
    UnpackPack(Column(0, 0, x2, 0));
    UnpackPack(Column(0, 0, 0, x3));
    AddSingleBytes(x0, x1, x2, x3);
  }

  lemma EncLastColumnSubstitutes(a: bv32, b: bv32, c: bv32, d: bv32, k: bv32)
    ensures Unpack(EncLastColumn(a, b, c, d, k))
         == AddColumns(Column(S(Byte0(a)), S(Byte1(b)), S(Byte2(c)), S(Byte3(d))), Unpack(k))
  {
    hide Sum, Byte0, Byte1, Byte2, Byte3, Unpack, S, Te4, Word;
    Te4Entry(Byte0(a));
    Te4Entry(Byte1(b));
    Te4Entry(Byte2(c));
    Te4Entry(Byte3(d));
    UnpackMasked(S(Byte0(a)), S(Byte1(b)), S(Byte2(c)), S(Byte3(d)), k);
  }

  lemma DecLastColumnSubstitutes(a: bv32, b: bv32, c: bv32, d: bv32, k: bv32)
    ensures Unpack(DecLastColumn(a, b, c, d, k))
         == AddColumns(Column(Si(Byte0(a)), Si(Byte1(b)), Si(Byte2(c)), Si(Byte3(d))), Unpack(k))
  {
    hide Sum, Byte0, Byte1, Byte2, Byte3, Unpack, Si, Td4, Word;
    Td4Entry(Byte0(a));
    Td4Entry(Byte1(b));
    Td4Entry(Byte2(c));
    Td4Entry(Byte3(d));
    UnpackMasked(Si(Byte0(a)), Si(Byte1(b)), Si(Byte2(c)), Si(Byte3(d)), k);
  }
}
