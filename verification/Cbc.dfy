/** Cipher block chaining as functions over an arbitrary block function, section 6.2 of NIST SP 800-38A. */
module Cbc {
  import opened Gf256

  type Block = b: seq<bv8> | |b| == 16 witness seq(16, _ => 0)

  function XorBytes(a: seq<bv8>, b: seq<bv8>): (c: seq<bv8>)
    requires |a| == |b|
    ensures |c| == |a|
  {
    seq(|a|, i requires 0 <= i < |a| => Add(a[i], b[i]))
  }

  lemma XorBytesCancels(a: seq<bv8>, b: seq<bv8>)
    requires |a| == |b|
    ensures XorBytes(XorBytes(a, b), b) == a
  {
    hide Add;
    forall i | 0 <= i < |a| {
      AddSelf(b[i], a[i]);
    }
  }

  /** n rounded up to whole blocks. */
  function Padded(n: nat): (m: nat)
    ensures n <= m < n + 16 && m % 16 == 0
    ensures n % 16 == 0 ==> m == n
  {
    if n == 0 then 0 else if n <= 16 then 16 else 16 + Padded(n - 16)
  }

  /** CBC encryption; a short last block is padded with the bytes of the chaining block. */
  function Encrypt(e: Block -> Block, p: seq<bv8>, iv: Block): (c: seq<bv8>)
    ensures |c| == Padded(|p|)
  {
    if |p| >= 16 then
      var c := e(XorBytes(p[..16], iv));
      c + Encrypt(e, p[16..], c)
    else if |p| > 0 then
      e(XorBytes(p, iv[..|p|]) + iv[|p|..])
    else
      []
  }

  /** CBC decryption of n bytes; the last block is chained on its first n % 16 bytes only. */
  function Decrypt(d: Block -> Block, c: seq<bv8>, n: nat, iv: Block): (p: seq<bv8>)
    requires |c| == Padded(n)
    ensures |p| == |c|
  {
    if n >= 16 then
      XorBytes(d(c[..16]), iv) + Decrypt(d, c[16..], n - 16, c[..16])
    else if n > 0 then
      var b := d(c);
      XorBytes(b[..n], iv[..n]) + b[n..]
    else
      []
  }

  /** The chaining block after the ciphertext c: its last block, if it has one. */
  function Chain(c: seq<bv8>, iv: Block): (r: Block)
    requires |c| % 16 == 0
  {
    if c == [] then iv else c[|c| - 16..]
  }

  lemma EncryptNothing(e: Block -> Block, iv: Block)
    ensures Encrypt(e, [], iv) == []
  {
  }

  lemma DecryptNothing(d: Block -> Block, iv: Block)
    ensures Decrypt(d, [], 0, iv) == []
  {
  }

  lemma EncryptOneBlock(e: Block -> Block, p: seq<bv8>, iv: Block)
    requires 0 < |p| <= 16
    ensures Encrypt(e, p, iv) == e(XorBytes(p, iv[..|p|]) + iv[|p|..])
  {
    if |p| == 16 {
      assert p[..16] == p && iv[..16] == iv;
      assert XorBytes(p, iv) + iv[16..] == XorBytes(p, iv);
    }
  }

  lemma DecryptOneBlock(d: Block -> Block, c: Block, n: nat, iv: Block)
    requires 0 < n <= 16
    ensures Decrypt(d, c, n, iv) == XorBytes(d(c)[..n], iv[..n]) + d(c)[n..]
  {
    if n == 16 {
      assert c[..16] == c && iv[..16] == iv && d(c)[..16] == d(c);
    }
  }

  lemma ChainNothing(iv: Block)
    ensures Chain([], iv) == iv
  {
  }

  lemma WholeBlocks(e: Block -> Block, p: seq<bv8>, iv: Block)
    requires |p| % 16 == 0
    ensures |Encrypt(e, p, iv)| == |p|
  {
  }

  lemma EncryptFirst(e: Block -> Block, p: seq<bv8>, iv: Block)
    requires |p| >= 16
    ensures var c0 := e(XorBytes(p[..16], iv)); Encrypt(e, p, iv) == c0 + Encrypt(e, p[16..], c0)
  {
  }

  lemma ChainAfter(c0: Block, r: seq<bv8>, iv: Block)
    requires |r| % 16 == 0
    ensures Chain(c0 + r, iv) == Chain(r, c0)
  {
  }

  /** Encryption in two calls, carrying the chaining block, is encryption in one. */
  lemma {:induction false} EncryptAppend(e: Block -> Block, a: seq<bv8>, b: seq<bv8>, iv: Block)
    requires |a| % 16 == 0
    ensures Encrypt(e, a + b, iv) == Encrypt(e, a, iv) + Encrypt(e, b, Chain(Encrypt(e, a, iv), iv))
    decreases |a|
  {
    hide XorBytes, Encrypt, Chain, Padded;
    if a == [] {
      EncryptNothing(e, iv);
      ChainNothing(iv);
      assert a + b == b && [] + Encrypt(e, b, iv) == Encrypt(e, b, iv);
    } else {
      var c0 := e(XorBytes(a[..16], iv));
      var rest := a[16..];
      EncryptFirst(e, a, iv);
      EncryptFirst(e, a + b, iv);
      assert (a + b)[..16] == a[..16] && (a + b)[16..] == rest + b;
      EncryptAppend(e, rest, b, c0);
      var r := Encrypt(e, rest, c0);
      WholeBlocks(e, rest, c0);
      ChainAfter(c0, r, iv);
      assert c0 + (r + Encrypt(e, b, Chain(r, c0))) == (c0 + r) + Encrypt(e, b, Chain(r, c0));
    }
  }

  lemma ChainAppend(a: seq<bv8>, b: seq<bv8>, iv: Block)
    requires |a| % 16 == 0 && |b| % 16 == 0
    ensures Chain(a + b, iv) == Chain(b, Chain(a, iv))
  {
    if b == [] {
      assert a + b == a;
    }
  }

  lemma PaddedFirst(n: nat)
    ensures Padded(n + 16) == Padded(n) + 16
  {
  }

  lemma DecryptFirst(d: Block -> Block, c: seq<bv8>, n: nat, iv: Block)
    requires n >= 16 && |c| == Padded(n)
    ensures |c[16..]| == Padded(n - 16)
    ensures Decrypt(d, c, n, iv) == XorBytes(d(c[..16]), iv) + Decrypt(d, c[16..], n - 16, c[..16])
  {
  }

  /** Decryption in two calls is decryption in one. */
  lemma {:induction false} DecryptAppend(d: Block -> Block, a: seq<bv8>, b: seq<bv8>, n: nat, iv: Block)
    requires |a| % 16 == 0 && |b| == Padded(n)
    ensures |a + b| == Padded(|a| + n)
    ensures Decrypt(d, a + b, |a| + n, iv) == Decrypt(d, a, |a|, iv) + Decrypt(d, b, n, Chain(a, iv))
    decreases |a|
  {
    hide XorBytes, Decrypt, Padded;
    if a == [] {
      DecryptNothing(d, iv);
      assert a + b == b && [] + Decrypt(d, b, n, iv) == Decrypt(d, b, n, iv);
    } else {
      var c0, rest := a[..16], a[16..];
      assert (a + b)[..16] == c0 && (a + b)[16..] == rest + b;
      DecryptAppend(d, rest, b, n, c0);
      PaddedFirst(|rest| + n);
      DecryptFirst(d, a, |a|, iv);
      DecryptFirst(d, a + b, |a| + n, iv);
      ChainAfter(c0, rest, iv);
      assert c0 + rest == a;
    }
  }

  lemma {:induction false} DecryptOfWholeBlocks(e: Block -> Block, d: Block -> Block, p: seq<bv8>, iv: Block)
    requires |p| % 16 == 0 && forall b :: d(e(b)) == b
    ensures Decrypt(d, Encrypt(e, p, iv), |p|, iv) == p
    decreases |p|
  {
    hide XorBytes;
    if p != [] {
      var x := XorBytes(p[..16], iv);
      var c0 := e(x);
      var c := Encrypt(e, p, iv);
      assert c[..16] == c0 && c[16..] == Encrypt(e, p[16..], c0);
      XorBytesCancels(p[..16], iv);
      DecryptOfWholeBlocks(e, d, p[16..], c0);
      assert d(e(x)) == x;
      assert p == p[..16] + p[16..];
    }
  }

  lemma DecryptOfShortBlock(e: Block -> Block, d: Block -> Block, p: seq<bv8>, iv: Block)
    requires 0 < |p| < 16 && forall b :: d(e(b)) == b
    ensures Decrypt(d, Encrypt(e, p, iv), |p|, iv) == p + iv[|p|..]
  {
    hide XorBytes;
    var n := |p|;
    var x: Block := XorBytes(p, iv[..n]) + iv[n..];
    XorBytesCancels(p, iv[..n]);
    assert d(e(x)) == x;
    assert x[..n] == XorBytes(p, iv[..n]) && x[n..] == iv[n..];
  }

  /**
    * Decrypting what encryption wrote restores the plaintext; a short last block is followed by the rest of the
    * chaining block before it.
    */
  lemma DecryptOfEncrypt(e: Block -> Block, d: Block -> Block, p: seq<bv8>, iv: Block)
    requires forall b :: d(e(b)) == b
    ensures Decrypt(d, Encrypt(e, p, iv), |p|, iv)
         == p + if |p| % 16 == 0 then [] else Chain(Encrypt(e, p[..|p| - |p| % 16], iv), iv)[|p| % 16..]
  {
    hide Encrypt, Decrypt;
    var short := |p| % 16;
    if short == 0 {
      DecryptOfWholeBlocks(e, d, p, iv);
    } else {
      var a, b := p[..|p| - short], p[|p| - short..];
      var c := Encrypt(e, a, iv);
      assert p == a + b;
      EncryptAppend(e, a, b, iv);
      DecryptAppend(d, c, Encrypt(e, b, Chain(c, iv)), |b|, iv);
      DecryptOfWholeBlocks(e, d, a, iv);
      DecryptOfShortBlock(e, d, b, Chain(c, iv));
    }
  }

  // ---------------------------------------------------------------- Block by block

  lemma XorAt(a: seq<bv8>, b: seq<bv8>, i: nat)
    requires |a| == |b| && i < |a|
    ensures XorBytes(a, b)[i] == a[i] ^ b[i]
  {
  }

  lemma ChainIsBefore(a: seq<bv8>, b: seq<bv8>, iv: Block)
    requires |a| % 16 == 0
    ensures Chain(a, iv) == if a == [] then iv else (a + b)[|a| - 16..|a|]
  {
  }

  /** Every ciphertext block enciphers its plaintext block, masked with the ciphertext block before it. */
  lemma EncryptedBlock(e: Block -> Block, a: seq<bv8>, b: Block, rest: seq<bv8>, iv: Block)
    requires |a| % 16 == 0
    ensures var n, c := |a|, Encrypt(e, a + b + rest, iv);
      c[n..n + 16] == e(XorBytes(b, if n == 0 then iv else c[n - 16..n]))
  {
    hide XorBytes, Encrypt, Chain, Padded;
    var ca := Encrypt(e, a, iv);
    assert a + b + rest == a + (b + rest) && (b + rest)[..16] == b && (b + rest)[16..] == rest;
    EncryptAppend(e, a, b + rest, iv);
    EncryptFirst(e, b + rest, Chain(ca, iv));
    WholeBlocks(e, a, iv);
    ChainIsBefore(ca, Encrypt(e, b + rest, Chain(ca, iv)), iv);
  }

  /** A short last block is filled up with the end of the ciphertext block before it. */
  lemma EncryptedRest(e: Block -> Block, a: seq<bv8>, b: seq<bv8>, iv: Block)
    requires |a| % 16 == 0 && 0 < |b| < 16
    ensures var n, c := |a|, Encrypt(e, a + b, iv);
      && |c| == n + 16
      && var v: Block := if n == 0 then iv else c[n - 16..n]; c[n..] == e(XorBytes(b, v[..|b|]) + v[|b|..])
  {
    hide XorBytes, Encrypt, Chain, Padded;
    var ca := Encrypt(e, a, iv);
    EncryptAppend(e, a, b, iv);
    EncryptOneBlock(e, b, Chain(ca, iv));
    WholeBlocks(e, a, iv);
    ChainIsBefore(ca, Encrypt(e, b, Chain(ca, iv)), iv);
  }

  lemma WholePadded(n: nat)
    requires n % 16 == 0
    ensures Padded(n) == n
  {
  }

  /** Every plaintext block is the deciphered block, unmasked with the ciphertext block before it. */
  lemma DecryptedBlock(d: Block -> Block, a: seq<bv8>, b: Block, rest: seq<bv8>, n: nat, iv: Block)
    requires |a| % 16 == 0 && |rest| == Padded(n)
    ensures |a + b + rest| == Padded(|a| + 16 + n)
    ensures Decrypt(d, a + b + rest, |a| + 16 + n, iv)[|a|..|a| + 16]
         == XorBytes(d(b), if a == [] then iv else a[|a| - 16..])
  {
    hide XorBytes, Decrypt, Chain, Padded;
    assert a + b + rest == a + (b + rest) && (b + rest)[..16] == b && (b + rest)[16..] == rest;
    PaddedFirst(n);
    WholePadded(|a|);
    DecryptAppend(d, a, b + rest, 16 + n, iv);
    DecryptFirst(d, b + rest, 16 + n, Chain(a, iv));
    ChainIsBefore(a, [], iv);
    assert a + [] == a;
  }
}
