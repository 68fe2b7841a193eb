/** iniparser3.0b/src/dictionary.c: a slot array with cached hashes, kept equal to a finite map. */
module Dictionary {
  import opened Wrappers
  import opened CharBytes

  type Slots = seq<Option<string>>

  /** What a dictionary holds: keys with a value, or with NULL. */
  type Entries = map<string, Option<string>>

  // ---------------------------------------------------------------- Hashing

  /** A char converted to unsigned: chars are signed, so the upper half is sign-extended. */
  function Unsigned(c: char): bv32 {
    var b := ByteOf(c);
    if b & 0x80 != 0 then (b as bv32) | 0xffff_ff00 else b as bv32
  }

  /** One turn of the hash loop, modulo 2^32. */
  function HashStep(h: bv32, c: char): bv32 {
    var h1 := h + Unsigned(c);
    var h2 := h1 + (h1 << 10);
    h2 ^ (h2 >> 6)
  }

  function HashPrefix(key: string): bv32 {
    if key == [] then 0 else HashStep(HashPrefix(key[..|key| - 1]), key[|key| - 1])
  }

  function HashEnd(h: bv32): bv32 {
    var h1 := h + (h << 3);
    var h2 := h1 ^ (h1 >> 11);
    h2 + (h2 << 15)
  }

  function Hash(key: string): bv32 {
    HashEnd(HashPrefix(key))
  }

  /** dictionary_hash. */
  method DictionaryHash(key: string) returns (hash: bv32)
    ensures hash == Hash(key)
  {
    hide HashStep, HashEnd;
    hash := 0;
    for i := 0 to |key|
      invariant hash == HashPrefix(key[..i])
    {
      assert key[..i + 1][..i] == key[..i];
      hash := HashStep(hash, key[i]);
    }
    assert key[..|key|] == key;
    hash := HashEnd(hash);
  }

  lemma FirstLetter()
    ensures ByteOf('a') == 0x61
  {
  }

  lemma SecondLetter()
    ensures ByteOf('b') == 0x62
  {
  }

  lemma UpperHalf()
    ensures ByteOf('\U{E4}') == 0xe4
  {
  }

  lemma UnsignedExample()
    ensures Unsigned('a') == 0x61 && Unsigned('b') == 0x62 && Unsigned('\U{E4}') == 0xffff_ffe4
  {
    hide ByteOf;
    FirstLetter();
    SecondLetter();
    UpperHalf();
  }

  lemma StepExample()
    ensures HashStep(0, 'a') == 0x0001_8270 && HashStep(0x0001_8270, 'b') == 0x0614_f9f9
    ensures HashStep(0, '\U{E4}') == 0xfc00_71db
  {
    hide Unsigned;
    UnsignedExample();
  }

  lemma EndExample()
    ensures HashEnd(0x0614f9f9) == 0x45e6_1e58 && HashEnd(0xfc0071db) == 0x9c39_0033
  {
  }

  /** Two keys, one with a character of the upper half. */
  lemma HashExample()
    ensures Hash("ab") == 0x45e6_1e58 && Hash("\U{E4}") == 0x9c39_0033
  {
    hide HashStep, HashEnd;
    StepExample();
    EndExample();
    assert "ab"[..1] == "a" && "a"[..0] == "" && "\U{E4}"[..0] == "";
    assert HashPrefix("") == 0;
    assert HashPrefix("a") == HashStep(0, 'a');
    assert HashPrefix("ab") == HashStep(HashPrefix("a"), 'b');
  }

  // ---------------------------------------------------------------- Slots

  /** The number of slots that hold a key. */
  function Occupied(ks: Slots): (n: nat)
    ensures n <= |ks|
  {
    if ks == [] then 0 else Occupied(ks[..|ks| - 1]) + if ks[|ks| - 1].Some? then 1 else 0
  }

  lemma {:induction false} OccupiedAppend(ks: Slots, ls: Slots)
    ensures Occupied(ks + ls) == Occupied(ks) + Occupied(ls)
    decreases |ls|
  {
    if ls == [] {
      assert ks + ls == ks;
    } else {
      assert (ks + ls)[..|ks + ls| - 1] == ks + ls[..|ls| - 1];
      OccupiedAppend(ks, ls[..|ls| - 1]);
    }
  }

  lemma OccupiedUpdate(ks: Slots, i: nat, k: Option<string>)
    requires i < |ks|
    ensures Occupied(ks[i := k]) == Occupied(ks) - (if ks[i].Some? then 1 else 0) + (if k.Some? then 1 else 0)
  {
    var a, b := ks[..i], ks[i + 1..];
    assert ks == a + [ks[i]] + b && ks[i := k] == a + [k] + b;
    OccupiedAppend(a + [ks[i]], b);
    OccupiedAppend(a, [ks[i]]);
    OccupiedAppend(a + [k], b);
    OccupiedAppend(a, [k]);
    assert Occupied([k]) == if k.Some? then 1 else 0;
    assert Occupied([ks[i]]) == if ks[i].Some? then 1 else 0;
  }

  /** A slot array with a free slot has one below its length: every slot is taken exactly when the count says so. */
  lemma {:induction false} OccupiedFull(ks: Slots)
    ensures Occupied(ks) == |ks| <==> forall i :: 0 <= i < |ks| ==> ks[i].Some?
  {
    if ks != [] {
      OccupiedFull(ks[..|ks| - 1]);
      assert forall i :: 0 <= i < |ks| - 1 ==> ks[..|ks| - 1][i] == ks[i];
    }
  }

  /** n empty slots. */
  function Empty(n: nat): (ks: Slots)
    ensures |ks| == n && forall i :: 0 <= i < n ==> ks[i].None?
  {
    seq(n, _ => None)
  }

  lemma {:induction false} OccupiedEmpty(n: nat)
    ensures Occupied(Empty(n)) == 0
  {
    if n > 0 {
      OccupiedEmpty(n - 1);
      assert Empty(n)[..n - 1] == Empty(n - 1);
    }
  }

  /** The first slot that holds x, or the number of slots. */
  function IndexOf(ks: Slots, x: Option<string>): (i: nat)
    ensures i <= |ks| && x !in ks[..i]
    ensures i < |ks| ==> ks[i] == x
  {
    if ks == [] || ks[0] == x then 0 else 1 + IndexOf(ks[1..], x)
  }

  lemma IndexOfIs(ks: Slots, x: Option<string>, i: nat)
    requires i <= |ks| && (forall j :: 0 <= j < i ==> ks[j] != x) && (i < |ks| ==> ks[i] == x)
    ensures IndexOf(ks, x) == i
  {
  }

  ghost predicate Unique(ks: Slots) {
    forall i, j :: 0 <= i < j < |ks| && ks[i].Some? ==> ks[i] != ks[j]
  }

  /** Every key's hash is cached in its slot. */
  ghost predicate Hashed(ks: Slots, hs: seq<bv32>) {
    |ks| == |hs| && forall i :: 0 <= i < |ks| && ks[i].Some? ==> hs[i] == Hash(ks[i].value)
  }

  /** The slots hold exactly the associations of m. */
  ghost predicate Holds(ks: Slots, vs: Slots, m: Entries) {
    && |ks| == |vs|
    && (forall i :: 0 <= i < |ks| && ks[i].Some? ==> ks[i].value in m && m[ks[i].value] == vs[i])
    && (forall k :: k in m ==> Some(k) in ks)
  }

  /** The slots after an association is set: in place, or in the first free slot of a full array doubled. */
  function SetSlots(ks: Slots, vs: Slots, k: string, v: Option<string>)
    : (r: (Slots, Slots))
    requires |ks| == |vs| && |ks| >= 1
  {
    var i := IndexOf(ks, Some(k));
    if i < |ks| then
      (ks, vs[i := v])
    else
      var full := IndexOf(ks, None) == |ks|;
      var ls, ws := if full then ks + Empty(|ks|) else ks, if full then vs + Empty(|vs|) else vs;
      var j := IndexOf(ls, None);
      assert full ==> ls[|ks|] == None;
      (ls[j := Some(k)], ws[j := v])
  }

  /** The slots after an association is removed. */
  function UnsetSlots(ks: Slots, vs: Slots, k: string)
    : (r: (Slots, Slots))
    requires |ks| == |vs|
  {
    var i := IndexOf(ks, Some(k));
    if i < |ks| then (ks[i := None], vs[i := None]) else (ks, vs)
  }

  // ---------------------------------------------------------------- The dictionary

  const DICTMINSZ := 128

  /** mem_double: twice the room, the new half filled with zero. */
  method MemDouble<T(0)>(a: array<T>, zero: T) returns (b: array<T>)
    ensures fresh(b) && b.Length == 2 * a.Length
    ensures b[..] == a[..] + seq(a.Length, _ => zero)
  {
    b := new T[2 * a.Length](i requires 0 <= i < 2 * a.Length reads a => if i < a.Length then a[i] else zero);
  }

  lemma {:induction false} NoKeys(ks: Slots, k: string)
    requires Occupied(ks) == 0
    ensures Some(k) !in ks
  {
    if ks != [] {
      NoKeys(ks[..|ks| - 1], k);
    }
  }

  lemma HoldsAppend(ks: Slots, vs: Slots, m: Entries, n: nat)
    requires Holds(ks, vs, m)
    ensures Holds(ks + Empty(n), vs + Empty(n), m)
  {
    forall x | x in m
      ensures Some(x) in ks + Empty(n)
    {
      assert Some(x) in ks;
    }
  }

  lemma HashedAppend(ks: Slots, hs: seq<bv32>, n: nat)
    requires Hashed(ks, hs)
    ensures Hashed(ks + Empty(n), hs + seq(n, _ => 0))
  {
    hide Hash;
  }

  lemma HoldsAfterGrow(ks: Slots, vs: Slots, hs: seq<bv32>, m: Entries)
    requires Holds(ks, vs, m) && Unique(ks) && Hashed(ks, hs)
    ensures Holds(ks + Empty(|ks|), vs + Empty(|ks|), m) && Unique(ks + Empty(|ks|))
    ensures Hashed(ks + Empty(|ks|), hs + seq(|ks|, _ => 0))
    ensures Occupied(ks + Empty(|ks|)) == Occupied(ks)
  {
    hide Hash, Holds, Hashed, Occupied;
    OccupiedAppend(ks, Empty(|ks|));
    OccupiedEmpty(|ks|);
    HoldsAppend(ks, vs, m, |ks|);
    HashedAppend(ks, hs, |ks|);
  }

  lemma NotHeld(ks: Slots, vs: Slots, m: Entries, k: string)
    requires Holds(ks, vs, m) && Some(k) !in ks
    ensures k !in m && IndexOf(ks, Some(k)) == |ks|
  {
  }

  lemma HashedAfterUpdate(ks: Slots, hs: seq<bv32>, i: nat, k: Option<string>, h: bv32)
    requires Hashed(ks, hs) && i < |ks| && (k.Some? ==> h == Hash(k.value))
    ensures Hashed(ks[i := k], hs[i := h])
  {
    hide Hash;
  }

  lemma HoldsAfterInsert(ks: Slots, vs: Slots, m: Entries,
                         i: nat, k: string, v: Option<string>)
    requires Holds(ks, vs, m) && Unique(ks) && i < |ks| && ks[i].None? && k !in m
    ensures Holds(ks[i := Some(k)], vs[i := v], m[k := v]) && Unique(ks[i := Some(k)])
  {
    var ls := ks[i := Some(k)];
    forall x | x in m[k := v]
      ensures Some(x) in ls
    {
      if x == k {
        assert ls[i] == Some(k);
      } else {
        var j :| 0 <= j < |ks| && ks[j] == Some(x);
        assert ls[j] == Some(x);
      }
    }
  }

  lemma HoldsAfterUpdate(ks: Slots, vs: Slots, m: Entries,
                         i: nat, k: string, v: Option<string>)
    requires Holds(ks, vs, m) && Unique(ks) && i < |ks| && ks[i] == Some(k)
    ensures Holds(ks, vs[i := v], m[k := v])
  {
  }

  lemma HoldsAfterRemove(ks: Slots, vs: Slots, m: Entries, i: nat, k: string)
    requires Holds(ks, vs, m) && Unique(ks) && i < |ks| && ks[i] == Some(k)
    ensures Holds(ks[i := None], vs[i := None], m - {k}) && Unique(ks[i := None])
  {
    var ls := ks[i := None];
    forall x | x in m - {k}
      ensures Some(x) in ls
    {
      var j :| 0 <= j < |ks| && ks[j] == Some(x);
      assert ls[j] == Some(x);
    }
  }

  class Dictionary {
    ghost var Contents: Entries
    var n: nat
    var size: nat
    var val: array<Option<string>>
    var key: array<Option<string>>
    var hash: array<bv32>

    ghost predicate Valid()
      reads this, val, key, hash
    {
      && size >= 1 && val.Length == size && key.Length == size && hash.Length == size
      && val != key && hash as object != key && hash as object != val
      && n == Occupied(key[..])
      && Unique(key[..])
      && Hashed(key[..], hash[..])
      && Holds(key[..], val[..], Contents)
    }

    ghost function Repr(): set<object>
      reads this
    {
      {this, val, key, hash}
    }

    /** dictionary_new. */
    constructor (initial: int)
      ensures Valid() && fresh(Repr())
      ensures Contents == map[] && n == 0 && size == if initial < 128 then 128 else initial
      ensures key[..] == Empty(size) && val[..] == Empty(size)
    {
      var s := if initial < DICTMINSZ then DICTMINSZ else initial;
      OccupiedEmpty(s);
      n := 0;
      size := s;
      val := new Option<string>[s](_ => None);
      key := new Option<string>[s](_ => None);
      hash := new bv32[s](_ => 0);
      Contents := map[];
      new;
      assert key[..] == Empty(s) && val[..] == Empty(s);
    }

    /** The scan that get, set and unset share: the slot of k, or size when there is none. */
    method Find(k: string) returns (i: nat)
      requires Valid()
      ensures i == IndexOf(key[..], Some(k)) <= size
      ensures i < size ==> key[i] == Some(k) && k in Contents && Contents[k] == val[i]
      ensures i == size ==> k !in Contents && Some(k) !in key[..]
    {
      hide Hash;
      var h := DictionaryHash(k);
      i := 0;
      while i < size
        invariant 0 <= i <= size
        invariant forall j :: 0 <= j < i ==> key[j] != Some(k)
      {
        if key[i].Some? {
          if h == hash[i] {
            if k == key[i].value {
              IndexOfIs(key[..], Some(k), i);
              return;
            }
          }
        }
        i := i + 1;
      }
      IndexOfIs(key[..], Some(k), i);
    }

    /** dictionary_get. */
    method Get(k: string, def: Option<string>) returns (v: Option<string>)
      requires Valid()
      ensures v == if k in Contents then Contents[k] else def
    {
      var i := Find(k);
      return if i < size then val[i] else def;
    }

    /** The growth step of dictionary_set: twice the slots, the same associations. */
    method Grow()
      requires Valid()
      modifies this
      ensures Valid() && fresh(val) && fresh(key) && fresh(hash)
      ensures Contents == old(Contents) && n == old(n) && size == 2 * old(size)
      ensures key[..] == old(key[..]) + Empty(old(size)) && val[..] == old(val[..]) + Empty(old(size))
    {
      hide Unique, Holds, Hashed;
      HoldsAfterGrow(key[..], val[..], hash[..], Contents);
      ghost var empty := Empty(size);
      assert seq(size, _ => None) == empty;
      val := MemDouble(val, None);
      key := MemDouble(key, None);
      hash := MemDouble(hash, 0);
      size := size * 2;
    }

    /** The last step of dictionary_set: the first free slot takes the association. */
    method Insert(k: string, v: Option<string>)
      requires Valid() && n < size && k !in Contents
      modifies this, key, val, hash
      ensures Valid() && key == old(key) && val == old(val) && hash == old(hash)
      ensures Contents == old(Contents)[k := v]
      ensures var i := IndexOf(old(key[..]), None);
        i < size && key[..] == old(key[..])[i := Some(k)] && val[..] == old(val[..])[i := v]
    {
      hide Hash, Hashed;
      ghost var ks, vs, hs := key[..], val[..], hash[..];
      OccupiedFull(ks);
      var h := DictionaryHash(k);
      var i := 0;
      while i < size && key[i].Some?
        invariant 0 <= i <= size
        invariant forall j :: 0 <= j < i ==> key[j].Some?
      {
        i := i + 1;
      }
      IndexOfIs(ks, None, i);
      OccupiedUpdate(ks, i, Some(k));
      key[i] := Some(k);
      val[i] := v;
      hash[i] := h;
      assert key[..] == ks[i := Some(k)];
      assert val[..] == vs[i := v];
      assert hash[..] == hs[i := h];
      HashedAfterUpdate(ks, hs, i, Some(k), h);
      n := n + 1;
      Contents := Contents[k := v];
      HoldsAfterInsert(ks, vs, old(Contents), i, k, v);
    }

    /** dictionary_set. A NULL key is refused; a known key gets the new value in place. */
    method Set(k: Option<string>, v: Option<string>) returns (r: int)
      requires Valid()
      modifies this, key, val, hash
      ensures Valid()
      ensures (key == old(key) || fresh(key)) && (val == old(val) || fresh(val)) && (hash == old(hash) || fresh(hash))
      ensures r == if k.None? then -1 else 0
      ensures Contents == if k.None? then old(Contents) else old(Contents)[k.value := v]
      ensures (key[..], val[..])
           == if k.None? then old((key[..], val[..])) else SetSlots(old(key[..]), old(val[..]), k.value, v)
    {
      hide Hash, Hashed, Occupied, Unique, Holds, IndexOf;
      if k.None? {
        return -1;
      }
      if n > 0 {
        var i := Find(k.value);
        if i < size {
          ghost var ks, vs := key[..], val[..];
          val[i] := v;
          Contents := Contents[k.value := v];
          assert key[..] == ks && val[..] == vs[i := v];
          HoldsAfterUpdate(ks, vs, old(Contents), i, k.value, v);
          return 0;
        }
      } else {
        NoKeys(key[..], k.value);
      }
      NotHeld(key[..], val[..], Contents, k.value);
      OccupiedFull(key[..]);
      if n == size {
        Grow();
      }
      Insert(k.value, v);
      return 0;
    }

    /** dictionary_unset. An unknown or NULL key changes nothing; otherwise the slot becomes free. */
    method Unset(k: Option<string>)
      requires Valid()
      modifies this, key, val, hash
      ensures Valid() && key == old(key) && val == old(val) && hash == old(hash)
      ensures Contents == if k.None? then old(Contents) else old(Contents) - {k.value}
      ensures (key[..], val[..])
           == if k.None? then old((key[..], val[..])) else UnsetSlots(old(key[..]), old(val[..]), k.value)
    {
      hide Hash, Hashed, Holds, Unique;
      if k.None? {
        return;
      }
      var i := Find(k.value);
      if i >= size {
        return;
      }
      ghost var ks, vs, hs := key[..], val[..], hash[..];
      OccupiedUpdate(ks, i, None);
      key[i] := None;
      val[i] := None;
      hash[i] := 0;
      assert key[..] == ks[i := None];
      assert val[..] == vs[i := None];
      assert hash[..] == hs[i := 0];
      HashedAfterUpdate(ks, hs, i, None, 0);
      n := n - 1;
      Contents := Contents - {k.value};
      HoldsAfterRemove(ks, vs, old(Contents), i, k.value);
    }
  }
}
