/** The heap hooks in place: CHeapAllocator's memory and the shadow memory change together. */
module KasanHooks {
  import opened Basics
  import opened Ram
  import opened HeapSpec
  import opened HeapAllocator
  import opened KasanShadow
  import opened KasanRuntime
  import opened KasanHeap

  /** kasan_shadow_allocated's three shadow updates. */
  method ShadowAllocated(c: Config, shadow: ShadowMemory, ptr: nat, nSize: nat)
    requires 0 < ptr && ptr % GRANULE == 0 && c.align % GRANULE == 0
    requires (ptr + Total(c, nSize)) / GRANULE <= shadow.bytes.Length
    modifies shadow.bytes
    ensures shadow.bytes[..] == MarkAllocated(c, old(shadow.bytes[..]), ptr, nSize)
  {
    hide Unpoison, Poison, RoundUp;
    RoundUpShift(ptr + c.align, nSize);
    RoundUpBounds(nSize);
    shadow.UnpoisonShadow(ptr + c.align, nSize);
    shadow.PoisonShadow(ptr, c.align, HEAP_HEAD_REDZONE);
    shadow.PoisonShadow(ptr + c.align + RoundUp(nSize), TAIL, HEAP_TAIL_REDZONE);
  }

  method KasanAllocateHook(heap: CHeapAllocator, shadow: ShadowMemory, nSize: nat, ghost sizes: map<nat, nat>)
    returns (p: nat, ghost sizes': map<nat, nat>)
    requires heap.Valid() && Fitting(heap.c, nSize)
    requires KOk(heap.c, KHeap(heap.h, shadow.bytes[..], sizes))
    modifies heap, shadow.bytes
    ensures heap.Valid()
    ensures (KHeap(heap.h, shadow.bytes[..], sizes'), p)
         == KAllocate(heap.c, old(KHeap(heap.h, shadow.bytes[..], sizes)), nSize)
    ensures KHeap(heap.h, shadow.bytes[..], sizes') == KStep(heap.c, old(KHeap(heap.h, shadow.bytes[..], sizes)), KAlloc(nSize))
    ensures p != 0 ==> AllGuarded(heap.c, KHeap(heap.h, shadow.bytes[..], sizes'), p, nSize)
  {
    hide KOk, KAllocate, AllGuarded, Fitting;
    ghost var k := KHeap(heap.h, shadow.bytes[..], sizes);
    p, sizes' := AllocateMarked(heap, shadow, nSize, sizes);
    if p != 0 { AllocatedGuarded(heap.c, k, nSize); }
  }

  /** Allocate the padded request, store the header word and update the shadow. */
  method AllocateMarked(heap: CHeapAllocator, shadow: ShadowMemory, nSize: nat, ghost sizes: map<nat, nat>)
    returns (p: nat, ghost sizes': map<nat, nat>)
    requires heap.Valid() && Fitting(heap.c, nSize)
    requires KOk(heap.c, KHeap(heap.h, shadow.bytes[..], sizes))
    modifies heap, shadow.bytes
    ensures heap.Valid()
    ensures (KHeap(heap.h, shadow.bytes[..], sizes'), p)
         == KAllocate(heap.c, old(KHeap(heap.h, shadow.bytes[..], sizes)), nSize)
  {
    var c := heap.c;
    ghost var k := KHeap(heap.h, shadow.bytes[..], sizes);
    sizes' := sizes;
    HookReady(c, k, nSize);
    hide KOk, HeapOk, Allocate, Write, MarkAllocated, Encode, RoundUp, Config.Ok, Stored;
    var ptr := heap.DoAllocate(Total(c, nSize));
    if ptr == 0 { return 0, sizes'; }
    heap.Fill(ptr, 0, Encode(RoundUp(nSize) % U32, 4));
    ShadowAllocated(c, shadow, ptr, nSize);
    p := ptr + c.align;
    sizes' := sizes[p := nSize];
  }

  /** What the hook may do with the block the allocator returns. */
  lemma HookReady(c: Config, k: KHeap, n: nat)
    requires KOk(c, k) && Fitting(c, n)
    ensures HeapOk(c, k.h) && Total(c, n) < c.Word()
    ensures var (h1, ptr) := Allocate(c, k.h, Total(c, n));
            ptr != 0 ==> && Owns(c, h1, ptr) && 4 <= |h1.blocks[At(c, h1, ptr)].data|
                         && ptr % GRANULE == 0 && c.align % GRANULE == 0
                         && (ptr + Total(c, n)) / GRANULE <= |k.shadow|
  {
    assert c.Ok();
    hide HeapOk, Allocate, Tagged, BlockOk, Owns;
    AllocatePlace(c, k.h, Total(c, n));
  }

  method KasanFreeHook(heap: CHeapAllocator, shadow: ShadowMemory, pBlock: nat, ghost sizes: map<nat, nat>)
    requires heap.Valid()
    requires KOk(heap.c, KHeap(heap.h, shadow.bytes[..], sizes))
    requires pBlock == 0 || KOwns(heap.c, KHeap(heap.h, shadow.bytes[..], sizes), pBlock)
    modifies heap, shadow.bytes
    ensures heap.Valid()
    ensures KHeap(heap.h, shadow.bytes[..], sizes)
         == KFree(heap.c, old(KHeap(heap.h, shadow.bytes[..], sizes)), pBlock)
         == KStep(heap.c, old(KHeap(heap.h, shadow.bytes[..], sizes)), KRelease(pBlock))
  {
    if pBlock != 0 { FreeOwned(heap, shadow, pBlock, sizes); }
  }

  method FreeOwned(heap: CHeapAllocator, shadow: ShadowMemory, p: nat, ghost sizes: map<nat, nat>)
    requires heap.Valid()
    requires KOk(heap.c, KHeap(heap.h, shadow.bytes[..], sizes))
    requires p != 0 && KOwns(heap.c, KHeap(heap.h, shadow.bytes[..], sizes), p)
    modifies heap, shadow.bytes
    ensures heap.Valid()
    ensures KHeap(heap.h, shadow.bytes[..], sizes)
         == KFree(heap.c, old(KHeap(heap.h, shadow.bytes[..], sizes)), p)
  {
    hide KOk, HeapOk, Stored, KFree, Free, Poison, Load, KOwns, Owns, At, Config.Ok;
    var c := heap.c;
    FreeReady(heap, KHeap(heap.h, shadow.bytes[..], sizes), p);
    var alignedSize := Load(heap.ram, p - c.align, 4);
    heap.DoFree(p - c.align);
    shadow.PoisonShadow(p, alignedSize, HEAP_FREE);
  }

  /** What the hook finds in the header, and what it may do with it. */
  lemma FreeReady(heap: CHeapAllocator, k: KHeap, p: nat)
    requires heap.Valid() && heap.h == k.h && KOk(heap.c, k) && p != 0 && KOwns(heap.c, k, p)
    ensures 0 < heap.c.align <= p && p - heap.c.align + 4 <= |heap.ram|
    ensures FreesAs(heap.c, k, p, Load(heap.ram, p - heap.c.align, 4), KFree(heap.c, k, p))
  {
    hide KOk, HeapOk, Stored, FreesAs, KFree, HeaderWord, Load, KOwns;
    HeaderInRam(heap.c, k, heap.ram, heap.m_FreeList, p);
    Frees(heap.c, k, p);
  }

  /** The free of the values, with that header word. */
  ghost predicate FreesAs(c: Config, k: KHeap, p: nat, w: nat, k': KHeap) {
    && c.align <= p && p % GRANULE == 0 && w % GRANULE == 0 && (p + w) / GRANULE <= |k.shadow|
    && HeapOk(c, k.h) && Owns(c, k.h, p - c.align)
    && k'.sizes == k.sizes && k'.h == Free(c, k.h, p - c.align) && k'.shadow == Poison(k.shadow, p, w, HEAP_FREE)
  }

  lemma Frees(c: Config, k: KHeap, p: nat)
    requires KOk(c, k) && p != 0 && KOwns(c, k, p)
    ensures FreesAs(c, k, p, HeaderWord(BlockAt(c, k, p)), KFree(c, k, p))
  {
    hide KOk, HeapOk, Tagged, BlockOk, HeaderWord, Free, Poison, At, Config.Ok, Total;
    Owned(c, k, p);
    KnownBlock(c, k, At(c, k.h, p - c.align));
  }

  /** The header word, read from memory. */
  lemma HeaderInRam(c: Config, k: KHeap, ram: seq<u8>, heads: seq<nat>, p: nat)
    requires KOk(c, k) && KOwns(c, k, p) && Stored(c, k.h, ram, heads)
    ensures 0 < c.align <= p && p - c.align + 4 <= |ram|
    ensures Load(ram, p - c.align, 4) == HeaderWord(BlockAt(c, k, p))
  {
    hide KOk, HeapOk, Stored, HeaderWord, Load, Config.Ok;
    OwnedRoom(c, k, p);
    var b := BlockAt(c, k, p);
    OwnedHeader(c, k.h, ram, heads, At(c, k.h, p - c.align));
    HeaderSlice(ram, p - c.align, b);
  }

  lemma OwnedRoom(c: Config, k: KHeap, p: nat)
    requires KOk(c, k) && KOwns(c, k, p)
    ensures c.Ok() && HeapOk(c, k.h)
    ensures var b := BlockAt(c, k, p); 4 <= c.align && b.addr + 2 * c.align == p && 4 <= |b.data|
  {
    assert c.Ok();
    hide KOk, Tagged, BlockOk, HeaderWord, Owns, At;
    Owned(c, k, p);
  }

  lemma HeaderSlice(ram: seq<u8>, ptr: nat, b: Block)
    requires ptr + |b.data| <= |ram| && ram[ptr..ptr + |b.data|] == b.data && 4 <= |b.data|
    ensures Load(ram, ptr, 4) == HeaderWord(b)
  {
    SliceOfSlice(ram, ptr, ptr + |b.data|, 0, 4);
  }
}
