/** common_encrypt and common_decrypt of src/common/common.c: whole-buffer encryption of C strings. */
module CommonCrypt {
  import opened Wrappers
  import opened Fips197
  import opened Rijndael
  import opened Cbc
  import opened Aes

  // ---------------------------------------------------------------- C strings and block-by-block mapping

  ghost predicate Terminated(s: seq<bv8>) {
    0 in s
  }

  /** strlen: the index of the first NUL. */
  function StrLen(s: seq<bv8>): (n: nat)
    requires Terminated(s)
    ensures n < |s| && s[n] == 0 && forall i :: 0 <= i < n ==> s[i] != 0
  {
    if s[0] == 0 then 0 else 1 + StrLen(s[1..])
  }

  /** The string that a C reader sees in a buffer. */
  function CString(s: seq<bv8>): seq<bv8>
    requires Terminated(s)
  {
    s[..StrLen(s)]
  }

  /** Buffers that agree up to and including the first NUL hold the same string. */
  lemma SameCString(s: seq<bv8>, t: seq<bv8>)
    requires Terminated(s) && StrLen(s) < |t| && s[..StrLen(s) + 1] == t[..StrLen(s) + 1]
    ensures Terminated(t) && CString(t) == CString(s)
  {
    var n := StrLen(s);
    assert forall i :: 0 <= i <= n ==> t[i] == t[..n + 1][i] == s[..n + 1][i] == s[i];
    assert t[n] == 0;
    assert StrLen(t) == n;
  }

  /** f applied to each whole block of p. */
  function MapBlocks(f: Block -> Block, p: seq<bv8>): (c: seq<bv8>)
    ensures |c| == |p| / 16 * 16
  {
    if |p| < 16 then [] else f(p[..16]) + MapBlocks(f, p[16..])
  }

  lemma {:induction false} MapBlocksInverse(f: Block -> Block, g: Block -> Block, p: seq<bv8>)
    requires |p| % 16 == 0 && forall b :: g(f(b)) == b
    ensures MapBlocks(g, MapBlocks(f, p)) == p
    decreases |p|
  {
    if p != [] {
      var c := MapBlocks(f, p);
      assert c[..16] == f(p[..16]) && c[16..] == MapBlocks(f, p[16..]);
      MapBlocksInverse(f, g, p[16..]);
      assert g(f(p[..16])) == p[..16];
      assert p == p[..16] + p[16..];
    }
  }

  lemma {:induction false} MapBlocksAppend(f: Block -> Block, p: seq<bv8>, b: Block)
    requires |p| % 16 == 0
    ensures MapBlocks(f, p + b) == MapBlocks(f, p) + f(b)
    decreases |p|
  {
    if p == [] {
      assert p + b == b && b[..16] == b && b[16..] == [];
      assert MapBlocks(f, b[16..]) == [];
    } else {
      assert (p + b)[..16] == p[..16] && (p + b)[16..] == p[16..] + b;
      MapBlocksAppend(f, p[16..], b);
    }
  }

  lemma {:induction false} MapBlocksBehind(f: Block -> Block, p: seq<bv8>, x: seq<bv8>)
    requires |p| % 16 == 0
    ensures MapBlocks(f, p + x) == MapBlocks(f, p) + MapBlocks(f, x)
    decreases |p|
  {
    if p == [] {
      assert p + x == x;
    } else {
      assert (p + x)[..16] == p[..16] && (p + x)[16..] == p[16..] + x;
      MapBlocksBehind(f, p[16..], x);
    }
  }

  lemma FirstMapped(f: Block -> Block, b: Block, rest: seq<bv8>)
    ensures MapBlocks(f, b + rest) == f(b) + MapBlocks(f, rest)
  {
    assert (b + rest)[..16] == b && (b + rest)[16..] == rest;
  }

  /** The blocks are mapped one by one, each on its own. */
  lemma MappedBlock(f: Block -> Block, a: seq<bv8>, b: Block, rest: seq<bv8>)
    requires |a| % 16 == 0
    ensures MapBlocks(f, a + b + rest)[|a|..|a| + 16] == f(b)
  {
    hide MapBlocks;
    assert a + b + rest == a + (b + rest);
    MapBlocksBehind(f, a, b + rest);
    FirstMapped(f, b, rest);
  }

  // ---------------------------------------------------------------- The routines

  /** The bytes that encryption covers: the string's whole blocks and the block that holds its NUL. */
  function Covered(str: seq<bv8>): (n: nat)
    requires Terminated(str)
    ensures StrLen(str) < n <= StrLen(str) + 16 && n % 16 == 0
  {
    StrLen(str) / 16 * 16 + 16
  }

  function Keys128(akey: seq<bv8>): RoundKeys
    requires 16 <= |akey|
  {
    ExpandedKeys(akey, 4, 10)
  }

  lemma NoBlocks(f: Block -> Block, p: seq<bv8>)
    ensures MapBlocks(f, p[..0]) == []
  {
  }

  lemma MoreBlocks(f: Block -> Block, p: seq<bv8>, h: nat)
    requires 16 * h + 16 <= |p|
    ensures MapBlocks(f, p[..16 * h + 16]) == MapBlocks(f, p[..16 * h]) + f(p[16 * h..16 * h + 16])
  {
    MapBlocksAppend(f, p[..16 * h], p[16 * h..16 * h + 16]);
    assert p[..16 * h] + p[16 * h..16 * h + 16] == p[..16 * h + 16];
  }

  lemma SplicePrefix(q: seq<bv8>, o: nat, b: seq<bv8>)
    requires o + |b| <= |q|
    ensures Splice(q, o, b)[..o + |b|] == q[..o] + b
  {
  }

  /** The byte loop that copies a block to the output. */
  method CopyBlock(from: array<bv8>, to: array<bv8>, o: nat)
    requires from != to && 16 <= from.Length && o + 16 <= to.Length
    modifies to
    ensures to[..] == Splice(old(to[..]), o, from[..16])
  {
    forall d | 0 <= d < 16 {
      to[o + d] := from[d];
    }
  }

  /** AES_encrypt of block h into a scratch buffer, and from there to the output. */
  method EncryptAndCopy(key: AesKey, str: array<bv8>, h: nat, scratch: array<bv8>, output: array<bv8>,
                        ghost e: Block -> Block)
    requires key.Ready() && e == Enciphering(key.RoundKeys())
    requires 16 * h + 16 <= str.Length && 16 * h + 16 <= output.Length && 16 <= scratch.Length
    requires scratch != output && str != output && str != scratch
    requires output[..][..16 * h] == MapBlocks(e, str[..][..16 * h])
    modifies scratch, output
    ensures output[..][..16 * h + 16] == MapBlocks(e, str[..][..16 * h + 16])
  {
    hide EncryptBlock, RoundKeysOf, MapBlocks, Splice;
    ghost var p, q := str[..], output[..];
    ghost var b: Block := p[16 * h..16 * h + 16];
    assert str[16 * h..16 * h + 16] == b;
    MoreBlocks(e, p, h);
    key.Encrypt(str, 16 * h, scratch, 0);
    SplicePrefix(old(scratch[..]), 0, e(b));
    assert scratch[..16] == scratch[..][..16] == e(b);
    CopyBlock(scratch, output, 16 * h);
    SplicePrefix(q, 16 * h, e(b));
  }

  /** common_encrypt. The dotted filler is prepared, but the bytes encrypted last are those of str. */
  method CommonEncrypt(akey: Option<seq<bv8>>, str: array<bv8>) returns (output: array?<bv8>, len: nat)
    requires akey.Some? ==> 16 <= |akey.value|
    requires Terminated(str[..]) && Covered(str[..]) <= str.Length
    ensures akey.None? ==> output == null
    ensures akey.Some? ==>
      && output != null && fresh(output)
      && len == Covered(str[..]) <= output.Length
      && output[..len] == MapBlocks(Enciphering(Keys128(akey.value)), str[..len])
  {
    hide ExpandedKeys, Enciphering, MapBlocks, RoundKeysOf, StrLen;
    if akey.None? {
      return null, 0;
    }
    var filler := new bv8[17](_ => 0x2e);
    var crypted := new bv8[18];
    var key := new AesKey();
    var r := key.SetEncryptKey(akey.value, 128);
    var s1, s2 := StrLen(str[..]) / 16, StrLen(str[..]) % 16;
    var h := 0;
    while h < s2
      invariant 0 <= h <= s2
      modifies filler
    {
      filler[h] := str[s1 * 16 + h];
      h := h + 1;
    }
    var out := new bv8[s1 * 16 + 17];
    ghost var e := Enciphering(Keys128(akey.value));
    h := 0;
    NoBlocks(e, str[..]);
    while h < s1
      invariant 0 <= h <= s1 && key.Ready() && key.RoundKeys() == Keys128(akey.value)
      invariant out[..][..16 * h] == MapBlocks(e, str[..][..16 * h])
      modifies crypted, out
    {
      EncryptAndCopy(key, str, h, crypted, out, e);
      h := h + 1;
    }
    EncryptAndCopy(key, str, h, filler, out, e);
    assert out[..16 * h + 16] == out[..][..16 * h + 16] && str[..16 * h + 16] == str[..][..16 * h + 16];
    return out, s1 * 16 + 16;
  }

  /** AES_decrypt of block i straight to its place. */
  method DecryptNext(key: AesKey, body: array<bv8>, i: nat, data: array<bv8>, ghost f: Block -> Block)
    requires key.Ready() && f == Deciphering(key.RoundKeys())
    requires 16 * i + 16 <= body.Length && 16 * i + 16 <= data.Length && body != data
    requires data[..][..16 * i] == MapBlocks(f, body[..][..16 * i])
    modifies data
    ensures data[..][..16 * i + 16] == MapBlocks(f, body[..][..16 * i + 16])
  {
    hide DecryptBlock, RoundKeysOf, MapBlocks, Splice;
    ghost var p, q := body[..], data[..];
    ghost var b: Block := p[16 * i..16 * i + 16];
    assert body[16 * i..16 * i + 16] == b;
    MoreBlocks(f, p, i);
    key.Decrypt(body, 16 * i, data, 16 * i);
    SplicePrefix(q, 16 * i, f(b));
  }

  /** common_decrypt: whole blocks, then a NUL one place beyond the last byte asked for. */
  method CommonDecrypt(body: array<bv8>, len: nat, thekey: Option<seq<bv8>>) returns (data: array?<bv8>)
    requires thekey.Some? ==> 16 <= |thekey.value|
    requires len <= body.Length
    ensures thekey.None? ==> data == null
    ensures thekey.Some? ==>
      && data != null && fresh(data) && data.Length == len + 4
      && data[..len / 16 * 16] == MapBlocks(Deciphering(InverseKeys(Keys128(thekey.value))), body[..len / 16 * 16])
      && data[len + 1] == 0
  {
    hide ExpandedKeys, InverseKeys, Deciphering, MapBlocks, RoundKeysOf;
    if thekey.None? {
      return null;
    }
    var key := new AesKey();
    var r := key.SetDecryptKey(thekey.value, 128);
    var d := new bv8[len + 4];
    var s1 := len / 16;
    var i := 0;
    ghost var f := Deciphering(InverseKeys(Keys128(thekey.value)));
    NoBlocks(f, body[..]);
    while i < s1
      invariant 0 <= i <= s1 && key.Ready() && key.RoundKeys() == InverseKeys(Keys128(thekey.value))
      invariant d[..][..16 * i] == MapBlocks(f, body[..][..16 * i])
      modifies d
    {
      DecryptNext(key, body, i, d, f);
      i := i + 1;
    }
    assert d[..16 * s1] == d[..][..16 * s1] && body[..16 * s1] == body[..][..16 * s1];
    d[len + 1] := 0;
    return d;
  }

  // ---------------------------------------------------------------- What a receiver gets

  /** Decrypting what common_encrypt sends gives back the covered bytes, hence the string. */
  method EncryptThenDecrypt(akey: seq<bv8>, str: array<bv8>) returns (data: array<bv8>)
    requires 16 <= |akey| && Terminated(str[..]) && Covered(str[..]) <= str.Length
    ensures Covered(str[..]) <= data.Length && data[..Covered(str[..])] == str[..Covered(str[..])]
    ensures Terminated(data[..]) && CString(data[..]) == CString(str[..])
  {
    hide ExpandedKeys, InverseKeys, Enciphering, Deciphering, MapBlocks, StrLen;
    var body, len := CommonEncrypt(Some(akey), str);
    var d := CommonDecrypt(body, len, Some(akey));
    DecipheringUndoesEnciphering(Keys128(akey));
    MapBlocksInverse(Enciphering(Keys128(akey)), Deciphering(InverseKeys(Keys128(akey))), str[..len]);
    assert d[..len] == str[..len];
    ghost var n := StrLen(str[..]);
    assert d[..][..n + 1] == d[..len][..n + 1] && str[..][..n + 1] == str[..len][..n + 1];
    SameCString(str[..], d[..]);
    return d;
  }

  /** Two buffers are sent as the same ciphertext exactly when they agree on every covered byte, slack included. */
  lemma SameCiphertext(akey: seq<bv8>, p: seq<bv8>, q: seq<bv8>)
    requires 16 <= |akey| && |p| % 16 == 0 && |q| % 16 == 0
    ensures var e := Enciphering(Keys128(akey)); MapBlocks(e, p) == MapBlocks(e, q) <==> p == q
  {
    hide ExpandedKeys, InverseKeys, Enciphering, Deciphering, MapBlocks;
    var e, d := Enciphering(Keys128(akey)), Deciphering(InverseKeys(Keys128(akey)));
    DecipheringUndoesEnciphering(Keys128(akey));
    MapBlocksInverse(e, d, p);
    MapBlocksInverse(e, d, q);
  }

  /** The last block as the source prepares it: the rest of the string, then dots. */
  function Filler(str: seq<bv8>): (b: Block)
    requires Terminated(str)
  {
    var n := StrLen(str);
    str[n / 16 * 16..n] + seq(16 - n % 16, _ => 0x2e)
  }

  lemma BlockOffset(k: nat)
    ensures k / 16 * 16 + k % 16 == k
  {
  }

  lemma FillerByte(str: seq<bv8>)
    requires Terminated(str)
    ensures Filler(str)[StrLen(str) % 16] == 0x2e
  {
    BlockOffset(StrLen(str));
  }

  lemma BytesDiffer(p: seq<bv8>, a: seq<bv8>, b: seq<bv8>, j: nat)
    requires j < |b| && |a| + j < |p| && p[|a| + j] != b[j]
    ensures p != a + b
  {
    assert |p| == |a + b| ==> (a + b)[|a| + j] == b[j];
  }

  /** The prepared filler is never what is encrypted: the bytes sent last always hold the NUL. */
  lemma FillerNeverSent(akey: seq<bv8>, str: seq<bv8>)
    requires 16 <= |akey| && Terminated(str) && Covered(str) <= |str|
    ensures var e, n := Enciphering(Keys128(akey)), Covered(str);
      MapBlocks(e, str[..n]) != MapBlocks(e, str[..n - 16]) + e(Filler(str))
  {
    hide ExpandedKeys, Enciphering, MapBlocks, StrLen, Filler;
    var e, k := Enciphering(Keys128(akey)), StrLen(str);
    FillerByte(str);
    BlockOffset(k);
    BytesDiffer(str[..Covered(str)], str[..Covered(str) - 16], Filler(str), k % 16);
    MapBlocksAppend(e, str[..Covered(str) - 16], Filler(str));
    SameCiphertext(akey, str[..Covered(str)], str[..Covered(str) - 16] + Filler(str));
  }
}
