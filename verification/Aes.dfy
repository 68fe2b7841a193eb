/** src/common/aes.c: key objects, single blocks and the CBC routine over caller-owned buffers. */
module Aes {
  import opened Gf256
  import opened Fips197
  import opened Rijndael
  import opened KeySchedule
  import opened Cbc

  /** AES_KEY: room for the longest schedule, and the number of rounds. */
  class AesKey {
    const key: array<bv32>
    var rounds: nat

    /** A key that one of the setup routines has filled for a supported key size. */
    ghost predicate Ready()
      reads this
    {
      key.Length == 60 && rounds in {10, 12, 14}
    }

    ghost function RoundKeys(): (keys: RoundKeys)
      requires Ready()
      reads this, key
      ensures |keys| == rounds + 1
    {
      RoundKeysOf(key[..], rounds)
    }

    constructor ()
      ensures key.Length == 60 && fresh(key) && rounds == 0
    {
      key := new bv32[60];
      rounds := 0;
    }

    /** AES_set_encrypt_key. */
    method SetEncryptKey(userkey: seq<bv8>, bits: int) returns (r: int)
      requires KeyBytes(bits) <= |userkey| && key.Length == 60
      modifies this, key
      ensures rounds == Rounds(bits) && r == if rounds == 0 then -1 else 0
      ensures r == 0 ==> Ready() && RoundKeys() == ExpandedKeys(userkey, bits / 32, rounds)
    {
      hide ExpandedKeys, RoundKeysOf;
      rounds := RijndaelKeySetupEnc(key, userkey, bits);
      return if rounds == 0 then -1 else 0;
    }

    /** AES_set_decrypt_key. */
    method SetDecryptKey(userkey: seq<bv8>, bits: int) returns (r: int)
      requires KeyBytes(bits) <= |userkey| && key.Length == 60
      modifies this, key
      ensures rounds == Rounds(bits) && r == if rounds == 0 then -1 else 0
      ensures r == 0 ==> Ready() && RoundKeys() == InverseKeys(ExpandedKeys(userkey, bits / 32, rounds))
    {
      hide ExpandedKeys, InverseKeys, RoundKeysOf;
      rounds := RijndaelKeySetupDec(key, userkey, bits);
      return if rounds == 0 then -1 else 0;
    }

    /** AES_encrypt. */
    method Encrypt(inp: array<bv8>, io: nat, out: array<bv8>, oo: nat)
      requires Ready() && io + 16 <= inp.Length && oo + 16 <= out.Length
      modifies out
      ensures out[..] == Splice(old(out[..]), oo, EncryptBlock(RoundKeys(), old(inp[io..io + 16])))
    {
      hide EncryptBlock, RoundKeysOf, Splice;
      RijndaelEncrypt(key, rounds, inp, io, out, oo);
    }

    /** AES_decrypt. */
    method Decrypt(inp: array<bv8>, io: nat, out: array<bv8>, oo: nat)
      requires Ready() && io + 16 <= inp.Length && oo + 16 <= out.Length
      modifies out
      ensures out[..] == Splice(old(out[..]), oo, DecryptBlock(RoundKeys(), old(inp[io..io + 16])))
    {
      hide DecryptBlock, RoundKeysOf, Splice;
      RijndaelDecrypt(key, rounds, inp, io, out, oo);
    }
  }

  /** The cipher under the given round keys as a block function. */
  function Enciphering(keys: RoundKeys): Block -> Block {
    (b: Block) => EncryptBlock(keys, b)
  }

  function Deciphering(dkeys: RoundKeys): Block -> Block {
    (b: Block) => DecryptBlock(dkeys, b)
  }

  lemma DecipheringUndoesEnciphering(keys: RoundKeys)
    ensures forall b :: Deciphering(InverseKeys(keys))(Enciphering(keys)(b)) == b
  {
    hide EncryptBlock, DecryptBlock, InverseKeys;
    forall b: Block {
      BlocksInverse(keys, b);
    }
  }

  /** CBC decryption under a key undoes CBC encryption under it, for messages of any length. */
  lemma CbcRoundTrip(keys: RoundKeys, p: seq<bv8>, iv: Block)
    ensures Cbc.Decrypt(Deciphering(InverseKeys(keys)), Cbc.Encrypt(Enciphering(keys), p, iv), |p|, iv)[..|p|] == p
  {
    hide Enciphering, Deciphering, Cbc.Encrypt, Cbc.Decrypt;
    DecipheringUndoesEnciphering(keys);
    DecryptOfEncrypt(Enciphering(keys), Deciphering(InverseKeys(keys)), p, iv);
  }

  // ---------------------------------------------------------------- AES_cbc_encrypt

  /** Encrypting a block through both key setups and back is the identity, for every supported key size. */
  method EncryptAndDecrypt(userkey: seq<bv8>, bits: int, b: array<bv8>)
    requires bits in {128, 192, 256} && KeyBytes(bits) <= |userkey| && b.Length == 16
    modifies b
    ensures b[..] == old(b[..])
  {
    hide ExpandedKeys, InverseKeys, RoundKeysOf, EncryptBlock, DecryptBlock;
    var enc := new AesKey();
    var dec := new AesKey();
    var r := enc.SetEncryptKey(userkey, bits);
    r := dec.SetDecryptKey(userkey, bits);
    ghost var p := b[..];
    assert b[0..16] == p;
    enc.Encrypt(b, 0, b, 0);
    BlocksInverse(ExpandedKeys(userkey, bits / 32, enc.rounds), p);
    assert b[0..16] == EncryptBlock(enc.RoundKeys(), p);
    dec.Decrypt(b, 0, b, 0);
  }

  /** The buffers of one CBC call: in and out may be the same memory, the IV is apart from both. */
  ghost predicate Buffers(inp: array<bv8>, io: nat, out: array<bv8>, oo: nat, iv: array<bv8>)
  {
    iv != inp && iv != out && iv.Length == 16 && (inp == out ==> io == oo)
  }

  /** The byte loops that fill tmp: the first n bytes masked with the IV, the rest the IV itself. */
  method MaskedBlock(inp: array<bv8>, io: nat, n: nat, iv: array<bv8>) returns (tmp: array<bv8>)
    requires n <= 16 && io + n <= inp.Length && iv.Length == 16
    ensures fresh(tmp) && tmp[..] == XorBytes(inp[io..io + n], iv[..n]) + iv[n..]
  {
    hide Add;
    tmp := new bv8[16];
    var i := 0;
    while i < n
      invariant 0 <= i <= n
      invariant forall j :: 0 <= j < i ==> tmp[j] == Add(inp[io + j], iv[j])
      modifies tmp
    {
      tmp[i] := Add(inp[io + i], iv[i]);
      i := i + 1;
    }
    while i < 16
      invariant n <= i <= 16
      invariant forall j :: 0 <= j < n ==> tmp[j] == Add(inp[io + j], iv[j])
      invariant forall j :: n <= j < i ==> tmp[j] == iv[j]
      modifies tmp
    {
      tmp[i] := iv[i];
      i := i + 1;
    }
  }

  /** The byte loop that unmasks the first n bytes of a block in place. */
  method Unmask(out: array<bv8>, oo: nat, n: nat, iv: array<bv8>)
    requires n <= 16 && oo + n <= out.Length && iv.Length == 16 && iv != out
    modifies out
    ensures out[..] == Splice(old(out[..]), oo, XorBytes(old(out[oo..oo + n]), iv[..n]))
  {
    hide Add;
    var i := 0;
    while i < n
      invariant 0 <= i <= n
      invariant forall j :: 0 <= j < i ==> out[oo + j] == Add(old(out[oo + j]), iv[j])
      invariant forall j :: 0 <= j < out.Length && !(oo <= j < oo + i) ==> out[j] == old(out[j])
    {
      out[oo + i] := Add(out[oo + i], iv[i]);
      i := i + 1;
    }
  }

  lemma SpliceOver<T>(p: seq<T>, o: nat, b: seq<T>, x: seq<T>)
    requires o + |b| <= |p| && |x| <= |b|
    ensures Splice(Splice(p, o, b), o, x) == Splice(p, o, x + b[|x|..])
  {
  }

  // ---------------------------------------------------------------- What a stretch of chaining does

  /** q became r by writing the CBC encryption of p at o, and the IV v became w, its last block. */
  ghost predicate Encrypted(e: Block -> Block, p: seq<bv8>, q: seq<bv8>, o: nat, v: Block, r: seq<bv8>, w: Block) {
    && o + Padded(|p|) <= |q|
    && r == Splice(q, o, Cbc.Encrypt(e, p, v))
    && w == Chain(Cbc.Encrypt(e, p, v), v)
  }

  /** q became r by writing the CBC decryption of n bytes of c at o, and the IV v became w, the last block of c. */
  ghost predicate Decrypted(d: Block -> Block, c: seq<bv8>, n: nat, q: seq<bv8>, o: nat, v: Block,
                            r: seq<bv8>, w: Block)
  {
    && |c| == Padded(n) && o + |c| <= |q|
    && r == Splice(q, o, Cbc.Decrypt(d, c, n, v))
    && w == Chain(c, v)
  }

  lemma PaddedRoom(n: nat, d: nat)
    requires d < n && d % 16 == 0
    ensures d + 16 <= Padded(n)
    ensures n <= d + 16 ==> d + 16 == Padded(n)
  {
  }

  lemma SpliceKeeps<T>(p: seq<T>, o: nat, b: seq<T>)
    requires o + |b| <= |p|
    ensures forall j :: o + |b| <= j < |p| ==> Splice(p, o, b)[j] == p[j]
  {
  }

  lemma AgreeingSlices(a: seq<bv8>, b: seq<bv8>, o: nat, k: nat, m: nat)
    requires k <= m <= |b| && o + m <= |a|
    requires forall j :: o + k <= j < o + m ==> a[j] == b[j - o]
    ensures a[o + k..o + m] == b[k..m]
  {
  }

  lemma NothingDone(e: Block -> Block, x: seq<bv8>, q: seq<bv8>, o: nat, v: Block)
    requires o <= |q|
    ensures Encrypted(e, x[..0], q, o, v, q, v)
    ensures Decrypted(e, x[..0], 0, q, o, v, q, v)
  {
  }

  /** Encrypting up to k and then from k to m is encrypting up to m. */
  lemma EncryptedMore(e: Block -> Block, p: seq<bv8>, k: nat, m: nat, q: seq<bv8>, o: nat, v: Block,
                      r: seq<bv8>, w: Block, r': seq<bv8>, w': Block)
    requires k % 16 == 0 && k < m <= k + 16 && m <= |p|
    requires Encrypted(e, p[..k], q, o, v, r, w)
    requires Encrypted(e, p[k..m], r, o + k, w, r', w')
    ensures Encrypted(e, p[..m], q, o, v, r', w')
    ensures forall j :: o + k + 16 <= j < |q| ==> r'[j] == r[j]
  {
    hide Cbc.Encrypt, Chain, Padded, Splice;
    var a, b := p[..k], p[k..m];
    assert a + b == p[..m];
    EncryptAppend(e, a, b, v);
    var x, y := Cbc.Encrypt(e, a, v), Cbc.Encrypt(e, b, w);
    ChainAppend(x, y, v);
    SpliceTwice(q, o, x, y);
    SpliceKeeps(r, o + k, y);
  }

  /** Likewise for decryption; n bytes are wanted of the block at k. */
  lemma DecryptedMore(d: Block -> Block, c: seq<bv8>, k: nat, n: nat, q: seq<bv8>, o: nat, v: Block,
                      r: seq<bv8>, w: Block, r': seq<bv8>, w': Block)
    requires k % 16 == 0 && 0 < n <= 16 && k + 16 <= |c|
    requires Decrypted(d, c[..k], k, q, o, v, r, w)
    requires Decrypted(d, c[k..k + 16], n, r, o + k, w, r', w')
    ensures Decrypted(d, c[..k + 16], k + n, q, o, v, r', w')
    ensures forall j :: o + k + 16 <= j < |q| ==> r'[j] == r[j]
  {
    hide Cbc.Decrypt, Chain, Padded, Splice;
    var a, b := c[..k], c[k..k + 16];
    assert a + b == c[..k + 16];
    DecryptAppend(d, a, b, n, v);
    var x, y := Cbc.Decrypt(d, a, k, v), Cbc.Decrypt(d, b, n, w);
    ChainAppend(a, b, v);
    SpliceTwice(q, o, x, y);
    SpliceKeeps(r, o + k, y);
  }

  /** One turn of the encryption loop: mask with the IV, encrypt, keep the result as the IV. */
  method EncryptStep(inp: array<bv8>, io: nat, out: array<bv8>, oo: nat, n: nat, key: AesKey, iv: array<bv8>)
    requires Buffers(inp, io, out, oo, iv) && key.Ready()
    requires 0 < n <= 16 && io + n <= inp.Length && oo + 16 <= out.Length
    modifies out, iv
    ensures Encrypted(Enciphering(key.RoundKeys()), old(inp[io..io + n]), old(out[..]), oo, old(iv[..]),
                      out[..], iv[..])
  {
    hide EncryptBlock, RoundKeysOf, XorBytes, Cbc.Encrypt;
    var tmp := MaskedBlock(inp, io, n, iv);
    ghost var e := Enciphering(key.RoundKeys());
    ghost var t: Block := tmp[..];
    assert tmp[0..16] == t;
    EncryptOneBlock(e, inp[io..io + n], iv[..]);
    key.Encrypt(tmp, 0, out, oo);
    SpliceRead(old(out[..]), oo, e(t));
    forall j | 0 <= j < 16 {
      iv[j] := out[oo + j];
    }
    assert iv[..] == e(t);
  }

  /** One turn of the decryption loop: keep the ciphertext, decrypt, unmask n bytes, make the ciphertext the IV. */
  method DecryptStep(inp: array<bv8>, io: nat, out: array<bv8>, oo: nat, n: nat, key: AesKey, iv: array<bv8>)
    requires Buffers(inp, io, out, oo, iv) && key.Ready()
    requires 0 < n <= 16 && io + 16 <= inp.Length && oo + 16 <= out.Length
    modifies out, iv
    ensures Decrypted(Deciphering(key.RoundKeys()), old(inp[io..io + 16]), n, old(out[..]), oo, old(iv[..]),
                      out[..], iv[..])
  {
    hide DecryptBlock, RoundKeysOf, Cbc.Decrypt, Splice, XorBytes;
    var tmp := new bv8[16](j requires 0 <= j < 16 reads inp => inp[io + j]);
    ghost var d := Deciphering(key.RoundKeys());
    ghost var c: Block := inp[io..io + 16];
    ghost var v, q := iv[..], out[..];
    assert tmp[0..16] == c && tmp[..] == c;
    key.Decrypt(tmp, 0, out, oo);
    ghost var b := d(c);
    SpliceRead(q, oo, b);
    assert out[oo..oo + n] == b[..n];
    Unmask(out, oo, n, iv);
    DecryptOneBlock(d, c, n, v);
    SpliceOver(q, oo, b, XorBytes(b[..n], v[..n]));
    forall j | 0 <= j < 16 {
      iv[j] := tmp[j];
    }
    assert iv[..] == c;
  }

  // ---------------------------------------------------------------- AES_cbc_encrypt

  /** The forward branch of AES_cbc_encrypt. */
  method CbcForward(inp: array<bv8>, io: nat, out: array<bv8>, oo: nat, size: nat, key: AesKey, iv: array<bv8>)
    requires Buffers(inp, io, out, oo, iv) && key.Ready()
    requires io + size <= inp.Length && oo + Padded(size) <= out.Length
    modifies out, iv
    ensures Encrypted(Enciphering(key.RoundKeys()), old(inp[io..io + size]), old(out[..]), oo, old(iv[..]),
                      out[..], iv[..])
  {
    hide RoundKeysOf, Enciphering, Encrypted, Padded;
    ghost var e := Enciphering(key.RoundKeys());
    ghost var p, v, q := inp[io..io + size], iv[..], out[..];
    var n, i, o := size, io, oo;
    ghost var k := 0;
    NothingDone(e, p, q, oo, v);
    while n >= 16
      invariant n == size - k && i == io + k && o == oo + k && 0 <= k <= size && k % 16 == 0
      invariant key.Ready() && e == Enciphering(key.RoundKeys())
      invariant Encrypted(e, p[..k], q, oo, v, out[..], iv[..])
      invariant forall j :: i <= j < io + size ==> inp[j] == p[j - io]
    {
      ghost var r, w := out[..], iv[..];
      AgreeingSlices(inp[..], p, io, k, k + 16);
      assert inp[i..i + 16] == p[k..k + 16];
      PaddedRoom(size, k);
      EncryptStep(inp, i, out, o, 16, key, iv);
      EncryptedMore(e, p, k, k + 16, q, oo, v, r, w, out[..], iv[..]);
      n, i, o := n - 16, i + 16, o + 16;
      k := k + 16;
    }
    if n > 0 {
      ghost var r, w := out[..], iv[..];
      PaddedRoom(size, k);
      AgreeingSlices(inp[..], p, io, k, size);
      assert inp[i..i + n] == p[k..size];
      EncryptStep(inp, i, out, o, n, key, iv);
      EncryptedMore(e, p, k, size, q, oo, v, r, w, out[..], iv[..]);
    }
    assert p[..size] == p;
  }

  /** The other branch of AES_cbc_encrypt, which reads and writes whole blocks. */
  method CbcBackward(inp: array<bv8>, io: nat, out: array<bv8>, oo: nat, size: nat, key: AesKey, iv: array<bv8>)
    requires Buffers(inp, io, out, oo, iv) && key.Ready()
    requires io + Padded(size) <= inp.Length && oo + Padded(size) <= out.Length
    modifies out, iv
    ensures Decrypted(Deciphering(key.RoundKeys()), old(inp[io..io + Padded(size)]), size, old(out[..]), oo,
                      old(iv[..]), out[..], iv[..])
  {
    hide RoundKeysOf, Deciphering, Decrypted, Padded;
    ghost var d := Deciphering(key.RoundKeys());
    ghost var c, v, q := inp[io..io + Padded(size)], iv[..], out[..];
    var n, i, o := size, io, oo;
    ghost var k := 0;
    NothingDone(d, c, q, oo, v);
    while n >= 16
      invariant n == size - k && i == io + k && o == oo + k && 0 <= k <= size && k % 16 == 0
      invariant key.Ready() && d == Deciphering(key.RoundKeys())
      invariant Decrypted(d, c[..k], k, q, oo, v, out[..], iv[..])
      invariant forall j :: i <= j < io + |c| ==> inp[j] == c[j - io]
    {
      ghost var r, w := out[..], iv[..];
      PaddedRoom(size, k);
      AgreeingSlices(inp[..], c, io, k, k + 16);
      assert inp[i..i + 16] == c[k..k + 16];
      DecryptStep(inp, i, out, o, 16, key, iv);
      DecryptedMore(d, c, k, 16, q, oo, v, r, w, out[..], iv[..]);
      n, i, o := n - 16, i + 16, o + 16;
      k := k + 16;
    }
    if n > 0 {
      ghost var r, w := out[..], iv[..];
      PaddedRoom(size, k);
      AgreeingSlices(inp[..], c, io, k, k + 16);
      assert inp[i..i + 16] == c[k..k + 16];
      DecryptStep(inp, i, out, o, n, key, iv);
      DecryptedMore(d, c, k, n, q, oo, v, r, w, out[..], iv[..]);
      assert c[..k + 16] == c;
    } else {
      assert c[..size] == c;
    }
  }

  /** AES_cbc_encrypt. The buffers in and out may be one: the result is the same as for two. */
  method CbcEncrypt(inp: array<bv8>, io: nat, out: array<bv8>, oo: nat, size: nat, key: AesKey, iv: array<bv8>,
                    forward: bool)
    requires Buffers(inp, io, out, oo, iv) && key.Ready()
    requires io + (if forward then size else Padded(size)) <= inp.Length && oo + Padded(size) <= out.Length
    modifies out, iv
    ensures forward ==>
      Encrypted(Enciphering(key.RoundKeys()), old(inp[io..io + size]), old(out[..]), oo, old(iv[..]), out[..], iv[..])
    ensures !forward ==>
      Decrypted(Deciphering(key.RoundKeys()), old(inp[io..io + Padded(size)]), size, old(out[..]), oo, old(iv[..]),
                out[..], iv[..])
  {
    hide RoundKeysOf, Enciphering, Deciphering, Encrypted, Decrypted, Padded;
    if forward {
      CbcForward(inp, io, out, oo, size, key, iv);
    } else {
      CbcBackward(inp, io, out, oo, size, key, iv);
    }
  }
}
