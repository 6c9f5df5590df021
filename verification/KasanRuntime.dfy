/** kasan.cpp's shadow routines, in place on the shadow memory. */
module KasanRuntime {
  import opened Basics
  import opened Ram
  import opened KasanShadow

  class ShadowMemory {
    const MEM_SHADOW_START: nat
    const bytes: array<u8>

    ghost predicate Valid() {
      0 < MEM_SHADOW_START
    }

    constructor (start: nat, bytes: array<u8>)
      requires 0 < start
      ensures Valid() && MEM_SHADOW_START == start && this.bytes == bytes
    {
      MEM_SHADOW_START := start;
      this.bytes := bytes;
    }

    /** 0, or the address of a shadow byte whose granule makes the access invalid. */
    method GetPoisonedShadowAddress(addr: nat, size: nat) returns (r: nat)
      requires Valid() && 0 < size && (addr + size - 1) / GRANULE < bytes.Length
      ensures var i := Poisoned(bytes[..], addr, size);
              r == if i == -1 then 0 else MEM_SHADOW_START + i
      ensures AllProper(bytes[..]) ==>
                (r == 0 <==> forall a :: addr <= a < addr + size ==> Addressable(bytes[..], a))
    {
      var start := MEM_SHADOW_START + addr / GRANULE;
      var end := MEM_SHADOW_START + (addr + size - 1) / GRANULE + 1;
      ghost var first := FirstNonZero(bytes[..], addr / GRANULE, (addr + size - 1) / GRANULE + 1);
      var nonZero := 0;
      var i := 0;
      while i < end - start
        invariant i <= end - start && nonZero == 0
        invariant forall k :: addr / GRANULE <= k < addr / GRANULE + i ==> bytes[k] == 0
      {
        if bytes[start + i - MEM_SHADOW_START] != 0 {
          nonZero := start + i;
          break;
        }
        i := i + 1;
      }
      assert nonZero == if first == (addr + size - 1) / GRANULE + 1 then 0 else MEM_SHADOW_START + first;
      if AllProper(bytes[..]) { CheckerExact(bytes[..], addr, size); }
      if nonZero != 0 {
        var lastByte := addr + size - 1;
        var last := MEM_SHADOW_START + lastByte / GRANULE;
        if nonZero != last || lastByte % GRANULE >= Signed(bytes[last - MEM_SHADOW_START]) { return nonZero; }
      }
      return 0;
    }

    method PoisonShadow(address: nat, size: nat, value: u8)
      requires 0 < address && address % GRANULE == 0 && size % GRANULE == 0
      requires (address + size) / GRANULE <= bytes.Length
      modifies bytes
      ensures bytes[..] == Poison(old(bytes[..]), address, size, value)
    {
      var start := address / GRANULE;
      var end := (address + size - 1) / GRANULE + 1;
      var i := start;
      while i < end
        invariant start <= i <= end == (address + size) / GRANULE
        invariant forall k :: 0 <= k < bytes.Length ==>
                                bytes[k] == if start <= k < i then value else old(bytes[k])
      {
        bytes[i] := value;
        i := i + 1;
      }
    }

    method UnpoisonShadow(address: nat, size: nat)
      requires 0 < address && address % GRANULE == 0 && RoundUp(address + size) / GRANULE <= bytes.Length
      modifies bytes
      ensures bytes[..] == Unpoison(old(bytes[..]), address, size)
    {
      PoisonShadow(address, size - size % GRANULE, UNPOISONED);
      if size % GRANULE != 0 {
        bytes[(address + size) / GRANULE] := size % GRANULE;
      }
    }

    /** Moves a region boundary; see TransitionMeans for what that does to the bytes around it. */
    method AnnotateRangeTransition(oldAddr: nat, newAddr: nat)
      requires GRANULE <= oldAddr && GRANULE <= newAddr
      requires RoundUp(oldAddr) / GRANULE <= bytes.Length && RoundUp(newAddr) / GRANULE <= bytes.Length
      modifies bytes
      ensures bytes[..] == Transition(old(bytes[..]), oldAddr, newAddr)
    {
      hide RoundUp, Unpoison, Shrunk;
      if newAddr > oldAddr {
        var alignedStart := RoundDown(oldAddr);
        UnpoisonShadow(alignedStart, newAddr - alignedStart);
      } else if newAddr < oldAddr {
        Shrink(oldAddr, newAddr);
      }
    }

    /** The branch for a region that shrank. */
    method Shrink(oldAddr: nat, newAddr: nat)
      requires GRANULE <= newAddr < oldAddr
      requires RoundUp(oldAddr) / GRANULE <= bytes.Length
      modifies bytes
      ensures bytes[..] == Shrunk(old(bytes[..]), oldAddr, newAddr)
    {
      hide Poison;
      ghost var s := bytes[..];
      var newPartial := newAddr % GRANULE;
      if newPartial != 0 {
        bytes[newAddr / GRANULE] := newPartial;
        s := s[newAddr / GRANULE := newPartial];
      }
      assert bytes[..] == s;
      var newAlignedNext := RoundUp(newAddr);
      var oldAligned := RoundDown(oldAddr);
      if newAlignedNext < oldAligned {
        PoisonShadow(newAlignedNext, oldAligned - newAlignedNext, CONTAINER_OVERFLOW);
        s := Poison(s, newAlignedNext, oldAligned - newAlignedNext, CONTAINER_OVERFLOW);
      }
      assert bytes[..] == s;
      if oldAddr % GRANULE != 0 && oldAligned >= newAlignedNext {
        bytes[oldAddr / GRANULE] := CONTAINER_OVERFLOW;
        s := s[oldAddr / GRANULE := CONTAINER_OVERFLOW];
      }
      assert bytes[..] == s;
    }
  }
}
