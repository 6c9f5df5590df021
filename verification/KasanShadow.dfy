/**
 The KASan shadow map: one shadow byte per 8-byte granule. 0 says that the whole granule may
 be accessed, 1..7 that only its first bytes may, a negative signed byte that none may.
 What the map compresses is the set of addressable bytes.
 */
module KasanShadow {
  import opened Basics
  import opened Ram

  const GRANULE: nat := 8
  const UNPOISONED: u8 := 0x00
  const CONTAINER_OVERFLOW: u8 := 0xfc
  const HEAP_HEAD_REDZONE: u8 := 0xfa
  const HEAP_TAIL_REDZONE: u8 := 0xfb
  const HEAP_FREE: u8 := 0xfd

  /** The shadow byte as `int8_t`. */
  function Signed(v: u8): (i: int)
    ensures -128 <= i < 128 && (v as int - i) % 256 == 0
  {
    if v < 0x80 then v else v - 0x100
  }

  /** The values the runtime ever stores. */
  predicate Proper(v: u8) {
    v < GRANULE || v >= 0x80
  }

  ghost predicate AllProper(shadow: seq<u8>) {
    forall i :: 0 <= i < |shadow| ==> Proper(shadow[i])
  }

  /** Byte `a` may be accessed. */
  predicate Addressable(shadow: seq<u8>, a: nat)
    requires a / GRANULE < |shadow|
  {
    shadow[a / GRANULE] == 0 || a % GRANULE < Signed(shadow[a / GRANULE])
  }

  function RoundUp(n: nat): (r: nat)
    ensures n <= r < n + GRANULE && r % GRANULE == 0
  {
    (n + GRANULE - 1) / GRANULE * GRANULE
  }

  function RoundDown(n: nat): (r: nat)
    ensures r <= n < r + GRANULE && r % GRANULE == 0
  {
    n / GRANULE * GRANULE
  }

  /** memset on the shadow bytes [lo, hi). */
  function Fill(shadow: seq<u8>, lo: nat, hi: nat, v: u8): (r: seq<u8>)
    requires lo <= hi <= |shadow|
    ensures |r| == |shadow|
    ensures forall i :: 0 <= i < |r| ==> r[i] == if lo <= i < hi then v else shadow[i]
  {
    shadow[..lo] + seq(hi - lo, _ => v) + shadow[hi..]
  }

  /** poison_shadow for an aligned range: all its granules get the value. */
  function Poison(shadow: seq<u8>, address: nat, size: nat, v: u8): (r: seq<u8>)
    requires address % GRANULE == 0 && size % GRANULE == 0 && (address + size) / GRANULE <= |shadow|
    ensures |r| == |shadow|
  {
    Fill(shadow, address / GRANULE, (address + size) / GRANULE, v)
  }

  /** unpoison_shadow: the whole granules, then the partial one. */
  function Unpoison(shadow: seq<u8>, address: nat, size: nat): (r: seq<u8>)
    requires address % GRANULE == 0 && RoundUp(address + size) / GRANULE <= |shadow|
    ensures |r| == |shadow|
  {
    var r := Poison(shadow, address, RoundDown(size), UNPOISONED);
    if size % GRANULE == 0 then r else r[(address + size) / GRANULE := size % GRANULE]
  }

  /** annotate_range_transition, on the shadow map as a value. */
  function Transition(shadow: seq<u8>, oldAddr: nat, newAddr: nat): (r: seq<u8>)
    requires RoundUp(oldAddr) / GRANULE <= |shadow| && RoundUp(newAddr) / GRANULE <= |shadow|
    ensures |r| == |shadow|
  {
    if newAddr > oldAddr then Unpoison(shadow, RoundDown(oldAddr), newAddr - RoundDown(oldAddr))
    else if newAddr < oldAddr then Shrunk(shadow, oldAddr, newAddr)
    else shadow
  }

  /** The region shrank: the new partial granule, the whole ones, the old partial one. */
  function Shrunk(shadow: seq<u8>, oldAddr: nat, newAddr: nat): (r: seq<u8>)
    requires newAddr < oldAddr && RoundUp(oldAddr) / GRANULE <= |shadow|
    ensures |r| == |shadow|
  {
    var s1 := if newAddr % GRANULE != 0 then shadow[newAddr / GRANULE := newAddr % GRANULE] else shadow;
    var s2 := if RoundUp(newAddr) < RoundDown(oldAddr)
              then Poison(s1, RoundUp(newAddr), RoundDown(oldAddr) - RoundUp(newAddr), CONTAINER_OVERFLOW) else s1;
    if oldAddr % GRANULE != 0 && RoundDown(oldAddr) >= RoundUp(newAddr)
    then s2[oldAddr / GRANULE := CONTAINER_OVERFLOW] else s2
  }

  // ---------------------------------------------------------------- what the writes mean

  lemma PoisonMeans(shadow: seq<u8>, address: nat, size: nat, v: u8, a: nat)
    requires address % GRANULE == 0 && size % GRANULE == 0 && (address + size) / GRANULE <= |shadow|
    requires a / GRANULE < |shadow| && (v == 0 || v >= 0x80)
    ensures Addressable(Poison(shadow, address, size, v), a)
        <==> if address <= a < address + size then v == 0 else Addressable(shadow, a)
  {
  }

  lemma UnpoisonByte(shadow: seq<u8>, address: nat, size: nat, g: nat)
    requires address % GRANULE == 0 && RoundUp(address + size) / GRANULE <= |shadow| && g < |shadow|
    ensures Unpoison(shadow, address, size)[g]
         == if address / GRANULE <= g < (address + size) / GRANULE then 0
            else if g == (address + size) / GRANULE && (address + size) % GRANULE != 0 then (address + size) % GRANULE
            else shadow[g]
  {
    assert (address + RoundDown(size)) / GRANULE == (address + size) / GRANULE;
    assert (address + size) % GRANULE == size % GRANULE;
  }

  lemma UnpoisonMeans(shadow: seq<u8>, address: nat, size: nat, a: nat)
    requires address % GRANULE == 0 && RoundUp(address + size) / GRANULE <= |shadow|
    requires a / GRANULE < |shadow|
    ensures Addressable(Unpoison(shadow, address, size), a)
        <==> if address <= a < RoundUp(address + size) then a < address + size else Addressable(shadow, a)
  {
    hide Unpoison;
    UnpoisonByte(shadow, address, size, a / GRANULE);
  }

  // ---------------------------------------------------------------- the checker

  /** The shadow index `get_poisoned_shadow_address` reports: the first non-zero byte of the
      range - unless that is the last byte and covers the last address. */
  function Poisoned(shadow: seq<u8>, addr: nat, size: nat): (r: int)
    requires size > 0 && (addr + size - 1) / GRANULE < |shadow|
  {
    var last := addr + size - 1;
    var i := FirstNonZero(shadow, addr / GRANULE, last / GRANULE + 1);
    if i == last / GRANULE + 1 then -1
    else if i != last / GRANULE || last % GRANULE >= Signed(shadow[last / GRANULE]) then i
    else -1
  }

  function FirstNonZero(shadow: seq<u8>, lo: nat, hi: nat): (i: nat)
    requires lo <= hi <= |shadow|
    ensures lo <= i <= hi
    ensures forall k :: lo <= k < i ==> shadow[k] == 0
    ensures i < hi ==> shadow[i] != 0
    decreases hi - lo
  {
    if lo == hi || shadow[lo] != 0 then lo else FirstNonZero(shadow, lo + 1, hi)
  }

  /** Looking at two shadow bytes is enough: the range is reported exactly when some byte of it
      may not be accessed, and the reported granule holds such a byte. */
  lemma CheckerExact(shadow: seq<u8>, addr: nat, size: nat)
    requires size > 0 && (addr + size - 1) / GRANULE < |shadow| && AllProper(shadow)
    ensures Poisoned(shadow, addr, size) == -1
       <==> forall a :: addr <= a < addr + size ==> Addressable(shadow, a)
    ensures var i := Poisoned(shadow, addr, size);
            i != -1 ==> exists a :: addr <= a < addr + size && a / GRANULE == i && !Addressable(shadow, a)
  {
    var last := addr + size - 1;
    var i := FirstNonZero(shadow, addr / GRANULE, last / GRANULE + 1);
    if i <= last / GRANULE {
      assert Proper(shadow[i]);
      // the last byte of the range inside granule i
      var a := if i == last / GRANULE then last else GRANULE * i + 7;
      assert a / GRANULE == i && addr <= a <= last;
      if Poisoned(shadow, addr, size) == -1 {
        forall b | addr <= b < addr + size ensures Addressable(shadow, b) {
          assert b / GRANULE <= i;
        }
      } else {
        assert !Addressable(shadow, a);
      }
    } else {
      forall b | addr <= b < addr + size ensures Addressable(shadow, b) {
        assert addr / GRANULE <= b / GRANULE <= last / GRANULE;
      }
    }
  }

  /** The value range matters: with a shadow byte of 8..127 the checker rejects a range whose
      every byte is addressable by the encoding's own rule. */
  lemma ImproperValue(v: u8)
    requires !Proper(v)
    ensures Poisoned([v, 0], 0, 16) == 0
    ensures forall a :: 0 <= a < 16 ==> Addressable([v, 0], a)
  {
    forall a: nat | a < 16 ensures Addressable([v, 0], a) { assert a / GRANULE == 0 || a / GRANULE == 1; }
  }

  // ---------------------------------------------------------------- containers

  /** The addressable bytes of the container's granule-aligned storage are [beg, mid). */
  ghost predicate Window(shadow: seq<u8>, beg: nat, mid: nat, end: nat) {
    && beg % GRANULE == 0 && beg <= mid <= end && RoundUp(end) / GRANULE <= |shadow|
    && forall a :: beg <= a < RoundUp(end) ==> (Addressable(shadow, a) <==> a < mid)
  }

  /** One boundary move, in either direction and for every alignment of both boundaries. */
  lemma TransitionMeans(shadow: seq<u8>, beg: nat, mid: nat, end: nat, newMid: nat)
    requires Window(shadow, beg, mid, end) && beg <= newMid <= end
    ensures RoundUp(mid) <= RoundUp(end) && RoundUp(newMid) <= RoundUp(end)
    ensures Window(Transition(shadow, mid, newMid), beg, newMid, end)
    ensures forall i :: 0 <= i < |shadow| && (i < beg / GRANULE || RoundUp(end) / GRANULE <= i) ==>
                          Transition(shadow, mid, newMid)[i] == shadow[i]
  {
    hide Transition, Addressable;
    RoundUpMonotone(mid, end);
    RoundUpMonotone(newMid, end);
    hide RoundUp;
    var s := Transition(shadow, mid, newMid);
    forall a | beg <= a < RoundUp(end) ensures Addressable(s, a) <==> a < newMid {
      TransitionAt(shadow, beg, mid, end, newMid, a);
    }
    forall i | 0 <= i < |shadow| && (i < beg / GRANULE || RoundUp(end) / GRANULE <= i) ensures s[i] == shadow[i] {
      TransitionOutside(shadow, beg, mid, end, newMid, i);
    }
  }

  lemma RoundUpMonotone(x: nat, y: nat)
    requires x <= y
    ensures RoundUp(x) <= RoundUp(y)
  {
  }

  lemma TransitionOutside(shadow: seq<u8>, beg: nat, mid: nat, end: nat, newMid: nat, i: nat)
    requires Window(shadow, beg, mid, end) && beg <= newMid <= end
    requires i < |shadow| && (i < beg / GRANULE || RoundUp(end) / GRANULE <= i)
    ensures Transition(shadow, mid, newMid)[i] == shadow[i]
  {
    hide Transition;
    TransitionByte(shadow, mid, newMid, i);
  }

  lemma TransitionAt(shadow: seq<u8>, beg: nat, mid: nat, end: nat, newMid: nat, a: nat)
    requires Window(shadow, beg, mid, end) && beg <= newMid <= end && beg <= a < RoundUp(end)
    ensures Addressable(Transition(shadow, mid, newMid), a) <==> a < newMid
  {
    hide Transition;
    TransitionByte(shadow, mid, newMid, a / GRANULE);
    assert Addressable(shadow, a) <==> a < mid;
  }

  /** The shadow byte of every granule after a move. */
  lemma TransitionByte(shadow: seq<u8>, oldAddr: nat, newAddr: nat, g: nat)
    requires RoundUp(oldAddr) / GRANULE <= |shadow| && RoundUp(newAddr) / GRANULE <= |shadow| && g < |shadow|
    ensures Transition(shadow, oldAddr, newAddr)[g]
         == if oldAddr < newAddr then
              if oldAddr / GRANULE <= g < newAddr / GRANULE then 0
              else if g == newAddr / GRANULE && newAddr % GRANULE != 0 then newAddr % GRANULE
              else shadow[g]
            else if newAddr < oldAddr then
              if g == newAddr / GRANULE && newAddr % GRANULE != 0 then newAddr % GRANULE
              else if RoundUp(newAddr) / GRANULE <= g < RoundUp(oldAddr) / GRANULE then 0xfc
              else shadow[g]
            else shadow[g]
  {
    if oldAddr < newAddr {
      GrownByte(shadow, oldAddr, newAddr, g);
    } else if newAddr < oldAddr {
      ShrunkByte(shadow, oldAddr, newAddr, g);
    }
  }

  lemma GrownByte(shadow: seq<u8>, oldAddr: nat, newAddr: nat, g: nat)
    requires oldAddr < newAddr && RoundUp(oldAddr) / GRANULE <= |shadow| && RoundUp(newAddr) / GRANULE <= |shadow|
    requires g < |shadow|
    ensures Transition(shadow, oldAddr, newAddr)[g]
         == if oldAddr / GRANULE <= g < newAddr / GRANULE then 0
            else if g == newAddr / GRANULE && newAddr % GRANULE != 0 then newAddr % GRANULE
            else shadow[g]
  {
    hide Unpoison;
    UnpoisonByte(shadow, RoundDown(oldAddr), newAddr - RoundDown(oldAddr), g);
  }

  lemma ShrunkByte(shadow: seq<u8>, oldAddr: nat, newAddr: nat, g: nat)
    requires newAddr < oldAddr && RoundUp(oldAddr) / GRANULE <= |shadow| && RoundUp(newAddr) / GRANULE <= |shadow|
    requires g < |shadow|
    ensures Transition(shadow, oldAddr, newAddr)[g]
         == if g == newAddr / GRANULE && newAddr % GRANULE != 0 then newAddr % GRANULE
            else if RoundUp(newAddr) / GRANULE <= g < RoundUp(oldAddr) / GRANULE then 0xfc
            else shadow[g]
  {
    hide Fill;
  }

  function Transitions(shadow: seq<u8>, mid: nat, mids: seq<nat>): (r: seq<u8>)
    requires RoundUp(mid) / GRANULE <= |shadow|
    requires forall k :: 0 <= k < |mids| ==> RoundUp(mids[k]) / GRANULE <= |shadow|
    decreases |mids|
  {
    if mids == [] then shadow
    else Transitions(Transition(shadow, mid, mids[0]), mids[0], mids[1..])
  }

  /** Every sequence of boundary moves keeps the window exact and leaves all other shadow bytes. */
  lemma {:induction false} TransitionsMean(shadow: seq<u8>, beg: nat, mid: nat, end: nat, mids: seq<nat>)
    requires Window(shadow, beg, mid, end)
    requires forall k :: 0 <= k < |mids| ==> beg <= mids[k] <= end && RoundUp(mids[k]) / GRANULE <= |shadow|
    ensures RoundUp(mid) / GRANULE <= |shadow|
    ensures var s := Transitions(shadow, mid, mids);
            && |s| == |shadow|
            && Window(s, beg, if mids == [] then mid else mids[|mids| - 1], end)
            && forall i :: 0 <= i < |shadow| && (i < beg / GRANULE || RoundUp(end) / GRANULE <= i) ==> s[i] == shadow[i]
    decreases |mids|
  {
    if mids != [] {
      TransitionMeans(shadow, beg, mid, end, mids[0]);
      TransitionsMean(Transition(shadow, mid, mids[0]), beg, mids[0], end, mids[1..]);
    }
  }
}
