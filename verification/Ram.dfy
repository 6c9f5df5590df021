/** Bytes of memory, and little-endian words stored in them. */
module Ram {
  import opened Basics

  function Pow256(n: nat): (r: nat)
    ensures r > 0
  {
    if n == 0 then 1 else 256 * Pow256(n - 1)
  }

  function Encode(v: nat, n: nat): (s: seq<u8>)
    ensures |s| == n
  {
    if n == 0 then [] else [v % 256] + Encode(v / 256, n - 1)
  }

  function Decode(s: seq<u8>): nat {
    if s == [] then 0 else s[0] + 256 * Decode(s[1..])
  }

  lemma {:induction false} DecodeEncode(v: nat, n: nat)
    requires v < Pow256(n)
    ensures Decode(Encode(v, n)) == v
  {
    if n > 0 {
      DecodeEncode(v / 256, n - 1);
      assert Encode(v, n)[1..] == Encode(v / 256, n - 1);
    }
  }

  /** The word of `n` bytes at address `a`. */
  function Load(ram: seq<u8>, a: nat, n: nat): nat
    requires a + n <= |ram|
  {
    Decode(ram[a..a + n])
  }

  function Store(ram: seq<u8>, a: nat, n: nat, v: nat): (r: seq<u8>)
    requires a + n <= |ram|
    ensures |r| == |ram|
  {
    ram[..a] + Encode(v, n) + ram[a + n..]
  }

  lemma LoadStored(ram: seq<u8>, a: nat, n: nat, v: nat)
    requires a + n <= |ram| && v < Pow256(n)
    ensures Load(Store(ram, a, n, v), a, n) == v
  {
    DecodeEncode(v, n);
    assert Store(ram, a, n, v)[a..a + n] == Encode(v, n);
  }

  /** A store leaves every range of bytes it does not touch as it was. */
  lemma StoreElsewhere(ram: seq<u8>, a: nat, n: nat, v: nat, lo: nat, hi: nat)
    requires a + n <= |ram| && lo <= hi <= |ram|
    requires hi <= a || a + n <= lo
    ensures Store(ram, a, n, v)[lo..hi] == ram[lo..hi]
  {
  }

  /** Copy bytes to address `a`. */
  function Patch(ram: seq<u8>, a: nat, bytes: seq<u8>): (r: seq<u8>)
    requires a + |bytes| <= |ram|
    ensures |r| == |ram|
  {
    ram[..a] + bytes + ram[a + |bytes|..]
  }

  lemma PatchElsewhere(ram: seq<u8>, a: nat, bytes: seq<u8>, lo: nat, hi: nat)
    requires a + |bytes| <= |ram| && lo <= hi <= |ram|
    requires hi <= a || a + |bytes| <= lo
    ensures Patch(ram, a, bytes)[lo..hi] == ram[lo..hi]
  {
  }

  lemma SliceOfSlice<T>(s: seq<T>, lo: nat, hi: nat, x: nat, y: nat)
    requires lo <= hi <= |s| && x <= y <= hi - lo
    ensures s[lo..hi][x..y] == s[lo + x..lo + y]
  {
    var a, b := s[lo..hi][x..y], s[lo + x..lo + y];
    forall k | 0 <= k < |a| ensures a[k] == b[k] {
      assert a[k] == s[lo..hi][x + k];
    }
  }
}
