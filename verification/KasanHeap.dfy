/**
 The KASan hooks around the heap: every allocation gets a head redzone (whose first word is a
 header), a tail redzone and a shadow; every run keeps the shadow exact for live blocks.
 */
module KasanHeap {
  import opened Basics
  import opened Ram
  import opened HeapSpec
  import opened HeapRuns
  import opened KasanShadow

  const TAIL: nat := 0x20

  /** `sizes` remembers, for every block ever handed out, the last request at that pointer. */
  datatype KHeap = KHeap(h: Heap, shadow: seq<u8>, sizes: map<nat, nat>)

  /** kasan_get_allocate_params: the head redzone is one alignment unit. */
  function Total(c: Config, n: nat): nat {
    RoundUp(n) + c.align + TAIL
  }

  /** The padded request does not wrap; see HugeRequest for what a wrapping one would do. */
  predicate Fitting(c: Config, n: nat) {
    Total(c, n) <= c.Word() - c.align
  }

  /** kasan_shadow_allocated: payload first, then both redzones. */
  function MarkAllocated(c: Config, shadow: seq<u8>, ptr: nat, n: nat): (r: seq<u8>)
    requires ptr % GRANULE == 0 && c.align % GRANULE == 0 && (ptr + Total(c, n)) / GRANULE <= |shadow|
    ensures |r| == |shadow|
  {
    var p := ptr + c.align;
    RoundUpShift(p, n);
    var s1 := Unpoison(shadow, p, n);
    var s2 := Poison(s1, ptr, c.align, HEAP_HEAD_REDZONE);
    Poison(s2, p + RoundUp(n), TAIL, HEAP_TAIL_REDZONE)
  }

  /** The whole footprint is decided: exactly the requested bytes are addressable. */
  lemma MarkAllocatedMeans(c: Config, shadow: seq<u8>, ptr: nat, n: nat, a: nat)
    requires ptr % GRANULE == 0 && c.align % GRANULE == 0 && (ptr + Total(c, n)) / GRANULE <= |shadow|
    requires a / GRANULE < |shadow|
    ensures Addressable(MarkAllocated(c, shadow, ptr, n), a)
        <==> if ptr <= a < ptr + Total(c, n) then ptr + c.align <= a < ptr + c.align + n
             else Addressable(shadow, a)
  {
    hide Unpoison, Poison, RoundUp, Addressable;
    var p := ptr + c.align;
    RoundUpShift(p, n);
    RoundUpBounds(n);
    RoundUpIsMultiple(n);
    UnpoisonMeans(shadow, p, n, a);
    var s1 := Unpoison(shadow, p, n);
    PoisonMeans(s1, ptr, c.align, HEAP_HEAD_REDZONE, a);
    var s2 := Poison(s1, ptr, c.align, HEAP_HEAD_REDZONE);
    PoisonMeans(s2, p + RoundUp(n), TAIL, HEAP_TAIL_REDZONE, a);
  }

  lemma RoundUpIsMultiple(n: nat)
    ensures RoundUp(n) % GRANULE == 0
  {
  }

  lemma RoundUpShift(p: nat, n: nat)
    requires p % GRANULE == 0
    ensures RoundUp(p + n) == p + RoundUp(n)
  {
  }

  lemma MarkAllocatedProper(c: Config, shadow: seq<u8>, ptr: nat, n: nat)
    requires ptr % GRANULE == 0 && c.align % GRANULE == 0 && (ptr + Total(c, n)) / GRANULE <= |shadow|
    requires AllProper(shadow)
    ensures AllProper(MarkAllocated(c, shadow, ptr, n))
  {
    hide RoundUp, Fill;
    var p := ptr + c.align;
    RoundUpShift(p, n);
    var s1 := Unpoison(shadow, p, n);
    assert AllProper(s1);
    hide Unpoison;
    var s2 := Poison(s1, ptr, c.align, HEAP_HEAD_REDZONE);
    assert AllProper(s2);
  }

  // ---------------------------------------------------------------- the invariant

  /** The header word kasan_shadow_allocated stores at the start of the head redzone. */
  function HeaderWord(b: Block): nat {
    if |b.data| < 4 then 0 else Decode(b.data[..4])
  }

  ghost predicate Tagged(c: Config, k: KHeap, b: Block)
    requires c.Ok()
  {
    var ptr := b.addr + c.align;
    var p := ptr + c.align;
    && p in k.sizes
    && var n := k.sizes[p];
       && Total(c, n) <= |b.data|
       && (ptr + Total(c, n)) / GRANULE <= |k.shadow|
       && HeaderWord(b) == RoundUp(n) % U32
       && (if b.status.Live? then Exact(c, k.shadow, ptr, n) else Swept(c, k.shadow, ptr, n))
  }

  /** A live allocation: its bytes are addressable, its padding and both redzones are not. */
  ghost predicate Exact(c: Config, shadow: seq<u8>, ptr: nat, n: nat)
  {
    forall a :: ptr <= a < ptr + Total(c, n) ==>
                  a / GRANULE < |shadow| && (Addressable(shadow, a) <==> ptr + c.align <= a < ptr + c.align + n)
  }

  /** A freed allocation: no payload byte is addressable, up to the 32 bits of the header. */
  ghost predicate Swept(c: Config, shadow: seq<u8>, ptr: nat, n: nat)
  {
    forall a :: ptr + c.align <= a < ptr + c.align + n ==>
                  a / GRANULE < |shadow| && (Addressable(shadow, a) <==> ptr + c.align + RoundUp(n) % U32 <= a)
  }

  ghost predicate KOk(c: Config, k: KHeap) {
    && HeapOk(c, k.h)
    && k.h.limit / GRANULE <= |k.shadow|
    && AllProper(k.shadow)
    && (forall i :: 0 <= i < |k.h.blocks| ==> BlockOk(c, k.h.blocks[i]) && Tagged(c, k, k.h.blocks[i]))
  }

  lemma GranuleAligned(c: Config, x: nat)
    requires c.align == 32 || c.align == 64
    requires c.Aligned(x)
    ensures x % GRANULE == 0 && c.align % GRANULE == 0 && (x + c.align) % GRANULE == 0
  {
    if c.align == 64 { Granules(x, 8); } else { Granules(x, 4); }
  }

  lemma Granules(x: nat, k: nat)
    requires (k == 8 && x % 64 == 0) || (k == 4 && x % 32 == 0)
    ensures x % GRANULE == 0 && (x + k * GRANULE) % GRANULE == 0
  {
    var m := if k == 8 then 8 * (x / 64) else 4 * (x / 32);
    assert x == GRANULE * m && x + k * GRANULE == GRANULE * (m + k);
  }

  lemma TotalAligned(c: Config, ptr: nat, n: nat)
    requires ptr % GRANULE == 0 && c.align % GRANULE == 0
    ensures (ptr + Total(c, n)) % GRANULE == 0
  {
    hide RoundUp;
    var m := ptr / GRANULE + RoundUp(n) / GRANULE + c.align / GRANULE + TAIL / GRANULE;
    assert ptr + Total(c, n) == GRANULE * m;
  }

  lemma BelowShadow(a: nat, end: nat, len: nat)
    requires a < end && end % GRANULE == 0 && end / GRANULE <= len
    ensures a / GRANULE < len
  {
  }

  lemma NoFurther(a: nat, b: nat)
    requires a <= b
    ensures a / GRANULE <= b / GRANULE
  {
  }

  /** The header word is a granule multiple inside the payload's rounded size. */
  lemma HeaderFits(n: nat)
    ensures (RoundUp(n) % U32) % GRANULE == 0 && RoundUp(n) % U32 <= RoundUp(n)
  {
    var m := (n + GRANULE - 1) / GRANULE;
    assert RoundUp(n) == 8 * m;
    assert 8 * m % U32 == 8 * (m % 0x2000_0000);
  }

  lemma TaggedRange(c: Config, k: KHeap, b: Block)
    requires c.Ok() && BlockOk(c, b) && Tagged(c, k, b)
    ensures var p := b.addr + 2 * c.align;
            && p in k.sizes && p % GRANULE == 0 && (p - c.align) % GRANULE == 0 && c.align % GRANULE == 0
            && HeaderWord(b) % GRANULE == 0 && (p + HeaderWord(b)) / GRANULE <= |k.shadow|
            && c.align + k.sizes[p] <= |b.data|
            && (b.addr + c.align + Total(c, k.sizes[p])) / GRANULE <= |k.shadow|
  {
    hide Exact, Swept, RoundUp, HeaderWord, Config.Aligned;
    GranuleAligned(c, b.addr);
    var n := k.sizes[b.addr + 2 * c.align];
    HeaderFits(n);
    NoFurther(b.addr + 2 * c.align + HeaderWord(b), b.addr + c.align + Total(c, n));
  }

  lemma AllocateOnly(c: Config, h: Heap, n: nat)
    requires HeapOk(c, h) && n < c.Word()
    ensures var (h', q) := Allocate(c, h, n);
            if q == 0 then h'.blocks == h.blocks && h'.limit == h.limit
            else
              && h'.limit == h.limit
              && forall j :: 0 <= j < |h'.blocks| && j != At(c, h', q) ==> j < |h.blocks| && h'.blocks[j] == h.blocks[j]
  {
    if Next(h) != 0 {
      if Recycles(c, h, n) {
        RecycleOnly(c, h, n);
      } else if Fits(c, h, Extent(c, Rounded(c, n))) {
        BumpIndex(c, h, n);
        BumpAppends(c, h, n);
        BumpLimit(c, h, n);
      }
    }
    hide HeapOk, Recycle, Bump, Rounded, Extent, Fits, Recycles;
  }

  lemma BumpLimit(c: Config, h: Heap, n: nat)
    requires HeapOk(c, h) && n < c.Word() && Next(h) != 0
    requires Fits(c, h, Extent(c, Rounded(c, n)))
    ensures Bump(c, h, n).0.limit == h.limit && Bump(c, h, n).1 != 0
  {
  }

  lemma RecycleOnly(c: Config, h: Heap, n: nat)
    requires HeapOk(c, h) && n < c.Word() && Recycles(c, h, n)
    ensures var (h', q) := Recycle(c, h, n);
            && h'.limit == h.limit && q != 0
            && forall j :: 0 <= j < |h'.blocks| && j != At(c, h', q) ==> j < |h.blocks| && h'.blocks[j] == h.blocks[j]
  {
    var i := h.lists[FirstFit(c.buckets, n)][0];
    ListHead(c, h, FirstFit(c.buckets, n));
    RecycleKeeps(c, h, n);
    FindsItself(c, Recycle(c, h, n).0, i);
    hide HeapOk, Recycles, FirstFit;
  }

  lemma BlockBelow(c: Config, h: Heap, i: nat)
    requires HeapOk(c, h) && i < |h.blocks|
    ensures End(c, h.blocks[i]) <= h.limit
  {
    BelowNext(c, h, i);
  }

  // ---------------------------------------------------------------- the hooks

  ghost function KAllocate(c: Config, k: KHeap, n: nat): (r: (KHeap, nat))
    requires KOk(c, k) && Fitting(c, n)
  {
    var (h1, ptr) := Allocate(c, k.h, Total(c, n));
    if ptr == 0 then (k.(h := h1), 0)
    else
      AllocatePlace(c, k.h, Total(c, n));
      var p := ptr + c.align;
      (KHeap(Write(c, h1, ptr, 0, Encode(RoundUp(n) % U32, 4)),
             MarkAllocated(c, k.shadow, ptr, n),
             k.sizes[p := n]), p)
  }

  ghost predicate KOwns(c: Config, k: KHeap, p: nat) {
    c.align <= p && Owns(c, k.h, p - c.align)
  }

  ghost function BlockAt(c: Config, k: KHeap, p: nat): Block
    requires KOwns(c, k, p)
  {
    k.h.blocks[At(c, k.h, p - c.align)]
  }

  /** The block behind an owned pointer, and the ranges the hooks touch. */
  lemma Owned(c: Config, k: KHeap, p: nat)
    requires KOk(c, k) && KOwns(c, k, p)
    ensures var b := BlockAt(c, k, p);
            && b.addr + 2 * c.align == p && b.status.Live? && Tagged(c, k, b) && BlockOk(c, b)
            && p in k.sizes && p % GRANULE == 0 && (p - c.align) % GRANULE == 0 && c.align % GRANULE == 0
            && HeaderWord(b) % GRANULE == 0 && (p + HeaderWord(b)) / GRANULE <= |k.shadow|
            && c.align + k.sizes[p] <= |b.data| && End(c, b) <= k.h.limit && p + k.sizes[p] <= k.h.limit
            && (p - c.align + Total(c, k.sizes[p])) / GRANULE <= |k.shadow|
  {
    hide HeapOk, BlockOk, Tagged, KOk, HeaderWord, Total, RoundUp;
    var b := BlockAt(c, k, p);
    KnownBlock(c, k, At(c, k.h, p - c.align));
    BlockBelow(c, k.h, At(c, k.h, p - c.align));
    TaggedRange(c, k, b);
  }

  lemma KnownBlock(c: Config, k: KHeap, i: nat)
    requires KOk(c, k) && i < |k.h.blocks|
    ensures c.Ok() && HeapOk(c, k.h) && Tagged(c, k, k.h.blocks[i]) && BlockOk(c, k.h.blocks[i])
  {
  }

  ghost function KFree(c: Config, k: KHeap, p: nat): (r: KHeap)
    requires KOk(c, k) && (p == 0 || KOwns(c, k, p))
  {
    if p == 0 then k
    else
      Owned(c, k, p);
      k.(h := Free(c, k.h, p - c.align), shadow := Poison(k.shadow, p, HeaderWord(BlockAt(c, k, p)), HEAP_FREE))
  }

  /** The owner of a block writes into it. */
  ghost function KWrite(c: Config, k: KHeap, p: nat, offset: nat, bytes: seq<u8>): (r: KHeap)
    requires KOwns(c, k, p) && c.align + offset + |bytes| <= |BlockAt(c, k, p).data|
  {
    k.(h := Write(c, k.h, p - c.align, c.align + offset, bytes))
  }

  /** Where an allocation lands, and that only that block changes. */
  lemma AllocatePlace(c: Config, h: Heap, n: nat)
    requires HeapOk(c, h) && n <= c.Word() - c.align && n < c.Word() && 32 <= n
    ensures var (h', q) := Allocate(c, h, n);
            if q == 0 then h'.blocks == h.blocks && h'.limit == h.limit
            else
              && HeapOk(c, h') && h'.limit == h.limit
              && q % GRANULE == 0 && c.align % GRANULE == 0
              && var i := At(c, h', q);
                 && i <= |h.blocks| && i < |h'.blocks| && Owns(c, h', q)
                 && h'.blocks[i].addr + c.align == q
                 && n <= |h'.blocks[i].data|
                 && q + n <= h'.limit
                 && (forall j :: 0 <= j < |h'.blocks| && j != i ==> j < |h.blocks| && h'.blocks[j] == h.blocks[j])
  {
    assert c.Ok();
    hide HeapOk, Allocate;
    var (h', q) := Allocate(c, h, n);
    AllocateResult(c, h, n);
    AllocateOnly(c, h, n);
    if q != 0 {
      var i := At(c, h', q);
      BlockBelow(c, h', i);
      GranuleAligned(c, q);
    }
  }

  // ---------------------------------------------------------------- the invariant is kept

  /** A block whose footprint the shadow change spares stays tagged. */
  lemma StaysTagged(c: Config, k: KHeap, k': KHeap, b: Block, lo: nat, hi: nat)
    requires c.Ok() && BlockOk(c, b) && Tagged(c, k, b) && |k'.shadow| == |k.shadow|
    requires forall a :: 0 <= a / GRANULE < |k.shadow| && !(lo <= a < hi) ==>
                           (Addressable(k'.shadow, a) <==> Addressable(k.shadow, a))
    requires End(c, b) <= lo || hi <= b.addr + c.align
    requires b.addr + 2 * c.align in k'.sizes && k'.sizes[b.addr + 2 * c.align] == k.sizes[b.addr + 2 * c.align]
    ensures Tagged(c, k', b)
  {
    hide Addressable, RoundUp;
    var ptr := b.addr + c.align;
    var n := k.sizes[ptr + c.align];
    RoundUpBounds(n);
    assert ptr + Total(c, n) <= End(c, b);
    if b.status.Live? {
      forall a | ptr <= a < ptr + Total(c, n)
        ensures a / GRANULE < |k'.shadow| && (Addressable(k'.shadow, a) <==> ptr + c.align <= a < ptr + c.align + n)
      {
        assert a / GRANULE < |k.shadow|;
      }
    } else {
      forall a | ptr + c.align <= a < ptr + c.align + n
        ensures a / GRANULE < |k'.shadow| && (Addressable(k'.shadow, a) <==> ptr + c.align + RoundUp(n) % U32 <= a)
      {
        assert a / GRANULE < |k.shadow|;
      }
    }
  }

  lemma RoundUpBounds(n: nat)
    ensures n <= RoundUp(n)
  {
  }

  lemma KAllocateKeeps(c: Config, k: KHeap, n: nat)
    requires KOk(c, k) && Fitting(c, n)
    ensures KOk(c, KAllocate(c, k, n).0)
  {
    assert c.Ok();
    hide HeapOk, Allocate, MarkAllocated, Tagged, BlockOk, Addressable, Write;
    AllocatePlace(c, k.h, Total(c, n));
    AllocateKeeps(c, k.h, Total(c, n));
    var (h1, ptr) := Allocate(c, k.h, Total(c, n));
    if ptr == 0 {
      AllBlocksOk(c, h1);
    } else {
      PlacedKeeps(c, k, h1, ptr, n);
    }
  }

  lemma AllBlocksOk(c: Config, h: Heap)
    requires HeapOk(c, h)
    ensures forall i :: 0 <= i < |h.blocks| ==> BlockOk(c, h.blocks[i])
  {
  }

  /** The header word reads back, and nothing else about the blocks changes. */
  lemma HeaderWritten(c: Config, h: Heap, ptr: nat, v: nat)
    requires Owns(c, h, ptr) && 4 <= |h.blocks[At(c, h, ptr)].data| && v < U32
    ensures var h' := Write(c, h, ptr, 0, Encode(v, 4));
            var i := At(c, h, ptr);
            && |h'.blocks| == |h.blocks| && h'.limit == h.limit
            && HeaderWord(h'.blocks[i]) == v
            && h'.blocks[i].addr == h.blocks[i].addr && h'.blocks[i].status == h.blocks[i].status
            && |h'.blocks[i].data| == |h.blocks[i].data|
            && forall j :: 0 <= j < |h.blocks| && j != i ==> h'.blocks[j] == h.blocks[j]
  {
    assert Pow256(4) == U32;
    DecodeEncode(v, 4);
    hide Decode, Encode, Owns, At;
    assert Write(c, h, ptr, 0, Encode(v, 4)).blocks[At(c, h, ptr)].data[..4] == Encode(v, 4);
  }

  lemma PlacedTagged(c: Config, k: KHeap, h1: Heap, ptr: nat, n: nat)
    requires KOk(c, k) && Fitting(c, n) && c.Ok()
    requires (h1, ptr) == Allocate(c, k.h, Total(c, n)) && ptr != 0 && HeapOk(c, h1)
    ensures var k' := KAllocate(c, k, n).0;
            At(c, h1, ptr) < |k'.h.blocks| && Tagged(c, k', k'.h.blocks[At(c, h1, ptr)])
  {
    hide HeapOk, Allocate, MarkAllocated, BlockOk, Encode, RoundUp, Tiled, Write, HeaderWord, Exact, KOk, Config.Ok, Swept, Addressable, AllProper, Total;
    PlacedInside(c, k, h1, ptr, n);
    HeaderWritten(c, h1, ptr, RoundUp(n) % U32);
    MarkedExact(c, k.shadow, ptr, n);
  }

  /** Where the new block lies, and that the shadow covers it. */
  lemma PlacedInside(c: Config, k: KHeap, h1: Heap, ptr: nat, n: nat)
    requires KOk(c, k) && Fitting(c, n) && c.Ok()
    requires (h1, ptr) == Allocate(c, k.h, Total(c, n)) && ptr != 0
    ensures HeapOk(c, k.h) && ptr % GRANULE == 0 && c.align % GRANULE == 0 && 32 <= c.align
    ensures var i := At(c, h1, ptr);
            && Owns(c, h1, ptr) && h1.blocks[i].addr + c.align == ptr && 4 <= Total(c, n) <= |h1.blocks[i].data|
    ensures (ptr + Total(c, n)) / GRANULE <= |k.shadow|
  {
    KTiled(c, k);
    hide HeapOk, Allocate, RoundUp, Tagged, BlockOk;
    AllocatePlace(c, k.h, Total(c, n));
    NoFurther(ptr + Total(c, n), k.h.limit);
  }

  lemma MarkedExact(c: Config, shadow: seq<u8>, ptr: nat, n: nat)
    requires ptr % GRANULE == 0 && c.align % GRANULE == 0 && (ptr + Total(c, n)) / GRANULE <= |shadow|
    ensures Exact(c, MarkAllocated(c, shadow, ptr, n), ptr, n)
  {
    hide MarkAllocated, Addressable, Total;
    var s' := MarkAllocated(c, shadow, ptr, n);
    TotalAligned(c, ptr, n);
    forall a | ptr <= a < ptr + Total(c, n)
      ensures a / GRANULE < |s'| && (Addressable(s', a) <==> ptr + c.align <= a < ptr + c.align + n)
    {
      BelowShadow(a, ptr + Total(c, n), |shadow|);
      MarkAllocatedMeans(c, shadow, ptr, n, a);
    }
  }

  lemma OtherPlace(c: Config, k: KHeap, h1: Heap, ptr: nat, n: nat, j: nat)
    requires KOk(c, k) && Fitting(c, n) && c.Ok()
    requires (h1, ptr) == Allocate(c, k.h, Total(c, n)) && ptr != 0 && HeapOk(c, h1)
    requires j < |h1.blocks| && j != At(c, h1, ptr)
    ensures j < |k.h.blocks| && h1.blocks[j] == k.h.blocks[j] && Tagged(c, k, h1.blocks[j]) && BlockOk(c, h1.blocks[j])
    ensures var b := h1.blocks[j];
            b.addr + c.align != ptr && (End(c, b) <= ptr || ptr + Total(c, n) <= b.addr + c.align)
  {
    assert Tiled(c, h1) && HeapOk(c, k.h);
    hide HeapOk, Allocate, BlockOk, RoundUp, Tagged, Tiled, KOk;
    AllocatePlace(c, k.h, Total(c, n));
    assert h1 == Allocate(c, k.h, Total(c, n)).0;
    var b := h1.blocks[j];
    assert j < |k.h.blocks| && b == k.h.blocks[j];
    KnownSize(c, k, j);
    Beside(c, h1, At(c, h1, ptr), j);
  }

  lemma OtherSpared(c: Config, k: KHeap, k': KHeap, b: Block, ptr: nat, n: nat)
    requires c.Ok() && BlockOk(c, b) && Tagged(c, k, b)
    requires ptr % GRANULE == 0 && (ptr + Total(c, n)) / GRANULE <= |k.shadow| && c.align % GRANULE == 0
    requires k'.shadow == MarkAllocated(c, k.shadow, ptr, n) && k'.sizes == k.sizes[ptr + c.align := n]
    requires End(c, b) <= ptr || ptr + Total(c, n) <= b.addr + c.align
    requires b.addr + c.align != ptr
    ensures Tagged(c, k', b)
  {
    assert b.addr + 2 * c.align in k.sizes;
    hide MarkAllocated, Addressable, RoundUp, Tagged, BlockOk;
    MarkSpares(c, k.shadow, ptr, n);
    StaysTagged(c, k, k', b, ptr, ptr + Total(c, n));
  }

  lemma Beside(c: Config, h: Heap, i: nat, j: nat)
    requires Tiled(c, h) && i < |h.blocks| && j < |h.blocks| && i != j
    ensures End(c, h.blocks[j]) <= h.blocks[i].addr || End(c, h.blocks[i]) <= h.blocks[j].addr
  {
    if j < i { AfterAt(c, h, j, i); } else { AfterAt(c, h, i, j); }
  }

  lemma MarkSpares(c: Config, shadow: seq<u8>, ptr: nat, n: nat)
    requires ptr % GRANULE == 0 && c.align % GRANULE == 0 && (ptr + Total(c, n)) / GRANULE <= |shadow|
    ensures forall a :: 0 <= a / GRANULE < |shadow| && !(ptr <= a < ptr + Total(c, n)) ==>
                          (Addressable(MarkAllocated(c, shadow, ptr, n), a) <==> Addressable(shadow, a))
  {
    hide MarkAllocated, Addressable;
    forall a: nat | a / GRANULE < |shadow| && !(ptr <= a < ptr + Total(c, n))
      ensures Addressable(MarkAllocated(c, shadow, ptr, n), a) <==> Addressable(shadow, a)
    {
      MarkAllocatedMeans(c, shadow, ptr, n, a);
    }
  }

  lemma KnownSize(c: Config, k: KHeap, j: nat)
    requires KOk(c, k) && j < |k.h.blocks|
    ensures c.Ok() && Tagged(c, k, k.h.blocks[j]) && BlockOk(c, k.h.blocks[j])
    ensures k.h.blocks[j].addr + 2 * c.align in k.sizes
  {
  }

  lemma PlacedKeeps(c: Config, k: KHeap, h1: Heap, ptr: nat, n: nat)
    requires KOk(c, k) && Fitting(c, n) && c.Ok()
    requires (h1, ptr) == Allocate(c, k.h, Total(c, n)) && ptr != 0 && HeapOk(c, h1)
    ensures KOk(c, KAllocate(c, k, n).0)
  {
    hide HeapOk, Allocate, MarkAllocated, Tagged, BlockOk, Addressable, Write, Encode, RoundUp;
    AllocatePlace(c, k.h, Total(c, n));
    var k' := KAllocate(c, k, n).0;
    var i := At(c, h1, ptr);
    HeaderWritten(c, h1, ptr, RoundUp(n) % U32);
    WriteKeepsOthers(c, h1, ptr, 0, Encode(RoundUp(n) % U32, 4));
    MarkAllocatedProper(c, k.shadow, ptr, n);
    AllBlocksOk(c, k'.h);
    forall j | 0 <= j < |k'.h.blocks| ensures Tagged(c, k', k'.h.blocks[j]) {
      if j == i { PlacedTagged(c, k, h1, ptr, n); }
      else {
        OtherPlace(c, k, h1, ptr, n, j);
        OtherSpared(c, k, k', h1.blocks[j], ptr, n);
      }
    }
  }

  lemma KFreeKeeps(c: Config, k: KHeap, p: nat)
    requires KOk(c, k) && (p == 0 || KOwns(c, k, p))
    ensures KOk(c, KFree(c, k, p))
  {
    if p == 0 { NullNotOwned(c, k); } else { KFreeOwned(c, k, p); }
  }

  lemma KFreeOwned(c: Config, k: KHeap, p: nat)
    requires KOk(c, k) && p != 0 && KOwns(c, k, p)
    ensures KOk(c, KFree(c, k, p))
  {
    KFreeHeap(c, k, p);
    KFreeTags(c, k, p);
    hide HeapOk, Tagged, BlockOk, Owns, At, KFree, Config.Ok, AllProper;
    assert k.h.limit / GRANULE <= |k.shadow|;
  }

  lemma NullNotOwned(c: Config, k: KHeap)
    requires KOk(c, k)
    ensures !KOwns(c, k, 0) && KFree(c, k, 0) == k
  {
    assert c.Ok();
  }

  lemma KFreeHeap(c: Config, k: KHeap, p: nat)
    requires KOk(c, k) && p != 0 && KOwns(c, k, p)
    ensures var k' := KFree(c, k, p);
            && HeapOk(c, k'.h) && !Owns(c, k'.h, p - c.align)
            && k'.h.limit == k.h.limit && |k'.shadow| == |k.shadow| && AllProper(k'.shadow)
            && forall i :: 0 <= i < |k'.h.blocks| ==> BlockOk(c, k'.h.blocks[i])
  {
    assert HeapOk(c, k.h) && AllProper(k.shadow);
    hide HeapOk, Free, Poison, Tagged, BlockOk, Grows, KOk, AllProper;
    Owned(c, k, p);
    FreeKeepsOthers(c, k.h, p - c.align);
    FreeRegion(c, k.h, p - c.align);
    PoisonProper(k.shadow, p, HeaderWord(BlockAt(c, k, p)), HEAP_FREE);
    AllBlocksOk(c, KFree(c, k, p).h);
  }

  lemma KFreeTags(c: Config, k: KHeap, p: nat)
    requires KOk(c, k) && p != 0 && KOwns(c, k, p)
    ensures var k' := KFree(c, k, p);
            forall j :: 0 <= j < |k'.h.blocks| ==> c.Ok() && Tagged(c, k', k'.h.blocks[j])
  {
    assert c.Ok() && Tiled(c, k.h);
    hide HeapOk, Tagged, BlockOk, Tiled, KFree, KOk, Owns;
    var k' := KFree(c, k, p);
    forall j | 0 <= j < |k'.h.blocks| ensures Tagged(c, k', k'.h.blocks[j]) {
      if j == At(c, k.h, p - c.align) { FreedTagged(c, k, p); }
      else { FreeOther(c, k, k', p, j); }
    }
  }

  lemma FreeRegion(c: Config, h: Heap, p: nat)
    requires HeapOk(c, h) && Owns(c, h, p)
    ensures Free(c, h, p).limit == h.limit && |Free(c, h, p).blocks| == |h.blocks|
    ensures var i := At(c, h, p);
            var b' := Free(c, h, p).blocks[i];
            b'.addr == h.blocks[i].addr && b'.data == h.blocks[i].data && !b'.status.Live?
  {
  }

  lemma PoisonProper(shadow: seq<u8>, address: nat, size: nat, v: u8)
    requires address % GRANULE == 0 && size % GRANULE == 0 && (address + size) / GRANULE <= |shadow|
    requires AllProper(shadow) && Proper(v)
    ensures AllProper(Poison(shadow, address, size, v))
  {
  }

  lemma PoisonSpares(shadow: seq<u8>, address: nat, size: nat, v: u8)
    requires address % GRANULE == 0 && size % GRANULE == 0 && (address + size) / GRANULE <= |shadow| && v >= 0x80
    ensures forall a :: 0 <= a / GRANULE < |shadow| && !(address <= a < address + size) ==>
                          (Addressable(Poison(shadow, address, size, v), a) <==> Addressable(shadow, a))
  {
    hide Poison, Addressable;
    forall a: nat | a / GRANULE < |shadow| && !(address <= a < address + size)
      ensures Addressable(Poison(shadow, address, size, v), a) <==> Addressable(shadow, a)
    {
      PoisonMeans(shadow, address, size, v, a);
    }
  }

  lemma FreedTagged(c: Config, k: KHeap, p: nat)
    requires KOk(c, k) && p != 0 && KOwns(c, k, p) && c.Ok()
    ensures At(c, k.h, p - c.align) < |KFree(c, k, p).h.blocks|
    ensures Tagged(c, KFree(c, k, p), KFree(c, k, p).h.blocks[At(c, k.h, p - c.align)])
  {
    assert HeapOk(c, k.h);
    hide HeapOk, Free, Poison, BlockOk, KOk, Config.Ok, Tagged, HeaderWord, Total;
    Owned(c, k, p);
    FreeRegion(c, k.h, p - c.align);
    var i := At(c, k.h, p - c.align);
    FreedTag(c, k, KFree(c, k, p), k.h.blocks[i], KFree(c, k, p).h.blocks[i], p);
  }

  lemma FreedTag(c: Config, k: KHeap, k': KHeap, b: Block, b': Block, p: nat)
    requires c.Ok() && Tagged(c, k, b) && b.status.Live? && b.addr + 2 * c.align == p && p % GRANULE == 0
    requires b'.addr == b.addr && b'.data == b.data && !b'.status.Live? && k'.sizes == k.sizes
    requires HeaderWord(b) % GRANULE == 0 && (p + HeaderWord(b)) / GRANULE <= |k.shadow|
    requires k'.shadow == Poison(k.shadow, p, HeaderWord(b), HEAP_FREE)
    ensures Tagged(c, k', b')
  {
    hide Poison, Addressable, RoundUp, Exact, Swept;
    SweptByFree(c, k.shadow, p - c.align, k.sizes[p]);
  }

  /** Poisoning as many bytes as the header's 32 bits say. */
  lemma SweptByFree(c: Config, shadow: seq<u8>, ptr: nat, n: nat)
    requires (ptr + c.align) % GRANULE == 0 && (ptr + Total(c, n)) / GRANULE <= |shadow| && Exact(c, shadow, ptr, n)
    ensures (RoundUp(n) % U32) % GRANULE == 0 && (ptr + c.align + RoundUp(n) % U32) / GRANULE <= |shadow|
    ensures Swept(c, Poison(shadow, ptr + c.align, RoundUp(n) % U32, HEAP_FREE), ptr, n)
  {
    hide Poison, Addressable, RoundUp;
    HeaderFits(n);
    RoundUpBounds(n);
    var p := ptr + c.align;
    var s' := Poison(shadow, p, RoundUp(n) % U32, HEAP_FREE);
    forall a | p <= a < p + n
      ensures a / GRANULE < |s'| && (Addressable(s', a) <==> p + RoundUp(n) % U32 <= a)
    {
      assert a / GRANULE < |shadow|;
      PoisonMeans(shadow, p, RoundUp(n) % U32, HEAP_FREE, a);
    }
  }

  lemma FreeOther(c: Config, k: KHeap, k': KHeap, p: nat, j: nat)
    requires KOk(c, k) && p != 0 && KOwns(c, k, p) && k' == KFree(c, k, p) && c.Ok() && Tiled(c, k.h)
    requires j < |k'.h.blocks| && j != At(c, k.h, p - c.align)
    ensures Tagged(c, k', k'.h.blocks[j])
  {
    assert HeapOk(c, k.h);
    hide HeapOk, Free, Poison, BlockOk, KOk, Tagged, Tiled, Config.Ok, HeaderWord, Total;
    Owned(c, k, p);
    FreeRest(c, k.h, p - c.align, j);
    KnownSize(c, k, j);
    FreedInside(c, k, p);
    SparedByFree(c, k, k', k.h.blocks[j], p, HeaderWord(BlockAt(c, k, p)));
  }

  lemma FreeRest(c: Config, h: Heap, p: nat, j: nat)
    requires HeapOk(c, h) && Owns(c, h, p) && j < |Free(c, h, p).blocks| && j != At(c, h, p)
    ensures j < |h.blocks| && Free(c, h, p).blocks[j] == h.blocks[j]
    ensures End(c, h.blocks[j]) <= h.blocks[At(c, h, p)].addr || End(c, h.blocks[At(c, h, p)]) <= h.blocks[j].addr
  {
    assert Tiled(c, h);
    hide HeapOk, Tiled;
    Beside(c, h, At(c, h, p), j);
  }

  lemma SparedByFree(c: Config, k: KHeap, k': KHeap, b: Block, p: nat, w: nat)
    requires c.Ok() && BlockOk(c, b) && Tagged(c, k, b)
    requires p % GRANULE == 0 && w % GRANULE == 0 && (p + w) / GRANULE <= |k.shadow|
    requires k'.shadow == Poison(k.shadow, p, w, HEAP_FREE) && k'.sizes == k.sizes
    requires End(c, b) <= p || p + w <= b.addr
    ensures Tagged(c, k', b)
  {
    assert b.addr + 2 * c.align in k.sizes;
    hide Poison, Tagged, BlockOk, Addressable;
    PoisonSpares(k.shadow, p, w, HEAP_FREE);
    StaysTagged(c, k, k', b, p, p + w);
  }

  lemma FreedInside(c: Config, k: KHeap, p: nat)
    requires KOk(c, k) && KOwns(c, k, p)
    ensures p + HeaderWord(BlockAt(c, k, p)) <= End(c, BlockAt(c, k, p))
  {
    Owned(c, k, p);
    hide KOk, BlockOk, KOwns;
    HeaderFits(k.sizes[p]);
  }

  lemma KWriteKeeps(c: Config, k: KHeap, p: nat, offset: nat, bytes: seq<u8>)
    requires KOk(c, k) && KOwns(c, k, p) && c.align + offset + |bytes| <= |BlockAt(c, k, p).data|
    ensures KOk(c, KWrite(c, k, p, offset, bytes))
  {
    hide HeapOk, Tagged, BlockOk, Write;
    WriteKeeps(c, k.h, p - c.align, c.align + offset, bytes);
    WriteRegion(c, k.h, p - c.align, c.align + offset, bytes);
    AlignLarge(c, k);
    var k' := KWrite(c, k, p, offset, bytes);
    AllBlocksOk(c, k'.h);
    forall j | 0 <= j < |k'.h.blocks| ensures Tagged(c, k', k'.h.blocks[j]) {
      KnownSize(c, k, j);
      WrittenTag(c, k, k', p, offset, bytes, j);
    }
  }

  lemma AlignLarge(c: Config, k: KHeap)
    requires KOk(c, k)
    ensures c.Ok() && 4 <= c.align
  {
  }

  lemma WriteRegion(c: Config, h: Heap, p: nat, offset: nat, bytes: seq<u8>)
    requires Owns(c, h, p) && offset + |bytes| <= |h.blocks[At(c, h, p)].data|
    ensures var h' := Write(c, h, p, offset, bytes); h'.limit == h.limit && |h'.blocks| == |h.blocks|
  {
  }

  lemma WrittenTag(c: Config, k: KHeap, k': KHeap, p: nat, offset: nat, bytes: seq<u8>, j: nat)
    requires KOwns(c, k, p) && c.align + offset + |bytes| <= |BlockAt(c, k, p).data|
    requires k' == KWrite(c, k, p, offset, bytes)
    requires c.Ok() && 4 <= c.align && j < |k.h.blocks| && Tagged(c, k, k.h.blocks[j])
    ensures j < |k'.h.blocks| && Tagged(c, k', k'.h.blocks[j])
  {
    hide Config.Ok, Addressable, RoundUp, Exact, Swept, Decode;
    if j == At(c, k.h, p - c.align) {
      assert k'.h.blocks[j].data[..4] == k.h.blocks[j].data[..4];
    } else {
      assert k'.h.blocks[j] == k.h.blocks[j];
    }
  }

  /** A heap just set up, whatever proper shadow it starts with. */
  lemma InitialOk(c: Config, base: nat, limit: nat, reserve: nat, arena: seq<u8>, shadow: seq<u8>)
    requires c.Ok() && 0 < base && c.Aligned(base) && base + |arena| == limit < c.Word() && reserve <= limit
    requires limit / GRANULE <= |shadow| && AllProper(shadow)
    ensures KOk(c, KHeap(Heap(base, limit, reserve, [], seq(|c.buckets|, _ => []), arena), shadow, map[]))
  {
  }

  // ---------------------------------------------------------------- requests that do not fit

  /** The total kasan_get_allocate_params computes, in machine words: both the rounding and the sum may
      wrap around. */
  function MachineTotal(c: Config, n: nat): (t: nat)
    requires c.Ok() && n < c.Word()
    ensures t < c.Word()
  {
    var rounded := RoundDown(c.Wrap(n + GRANULE - 1));
    c.Wrap(rounded + c.align + TAIL)
  }

  lemma MachineTotalIs(c: Config, n: nat)
    requires c.Ok() && n < c.Word()
    ensures Fitting(c, n) ==> MachineTotal(c, n) == Total(c, n) <= c.Word() - c.align
    ensures !Fitting(c, n) ==> c.Word() - c.align < MachineTotal(c, n) || c.Word() <= c.align + n + TAIL + GRANULE
  {
  }

  /** The block the hook obtains holds the head redzone and the n requested bytes exactly when the padded
      request does not wrap. */
  lemma HoldsIffFitting(c: Config, h: Heap, n: nat)
    requires HeapOk(c, h) && n < c.Word()
    ensures c.Ok()
    ensures var (h', q) := Allocate(c, h, MachineTotal(c, n));
            q != 0 ==> At(c, h', q) < |h'.blocks| && (c.align + n <= |h'.blocks[At(c, h', q)].data| <==> Fitting(c, n))
  {
    assert c.Ok();
    hide HeapOk, Allocate, Grows, KeepsOthers, MachineTotal;
    var t := MachineTotal(c, n);
    var (h', q) := Allocate(c, h, t);
    AllocateResult(c, h, t);
    MachineTotalIs(c, n);
    if q != 0 {
      if t > c.Word() - c.align { HugeIsEmpty(c, h, t); }
      PayloadBelow(c, h', At(c, h', q));
    }
  }

  /** No payload is as long as the address space is wide. */
  lemma PayloadBelow(c: Config, h: Heap, i: nat)
    requires HeapOk(c, h) && i < |h.blocks|
    ensures c.Ok() && |h.blocks[i].data| + 2 * c.align < c.Word()
  {
    assert BlockOk(c, h.blocks[i]);
    BlockBelow(c, h, i);
  }

  // ---------------------------------------------------------------- runs

  datatype KOp = KAlloc(n: nat) | KRelease(p: nat) | KPut(p: nat, offset: nat, bytes: seq<u8>)

  ghost predicate CanKStep(c: Config, k: KHeap, op: KOp) {
    match op
    case KAlloc(n) => Fitting(c, n)
    case KRelease(p) => p == 0 || KOwns(c, k, p)
    case KPut(p, offset, bytes) =>
      KOwns(c, k, p) && p in k.sizes && offset + |bytes| <= k.sizes[p]  // inside what it asked for
  }

  lemma PutFits(c: Config, k: KHeap, p: nat, offset: nat, bytes: seq<u8>)
    requires KOk(c, k) && CanKStep(c, k, KPut(p, offset, bytes))
    ensures c.align + offset + |bytes| <= |BlockAt(c, k, p).data|
  {
    hide KOk, Owns, At;
    Owned(c, k, p);
  }

  ghost function KStep(c: Config, k: KHeap, op: KOp): KHeap
    requires KOk(c, k) && CanKStep(c, k, op)
  {
    match op
    case KAlloc(n) => KAllocate(c, k, n).0
    case KRelease(p) => KFree(c, k, p)
    case KPut(p, offset, bytes) =>
      PutFits(c, k, p, offset, bytes);
      KWrite(c, k, p, offset, bytes)
  }

  lemma KStepKeeps(c: Config, k: KHeap, op: KOp)
    requires KOk(c, k) && CanKStep(c, k, op)
    ensures KOk(c, KStep(c, k, op))
  {
    hide KOk, KAllocate, KFree, KWrite;
    match op
    case KAlloc(n) => KAllocateKeeps(c, k, n);
    case KRelease(p) => KFreeKeeps(c, k, p);
    case KPut(p, offset, bytes) =>
      PutFits(c, k, p, offset, bytes);
      KWriteKeeps(c, k, p, offset, bytes);
  }

  ghost predicate CanKRun(c: Config, k: KHeap, ops: seq<KOp>)
    requires KOk(c, k)
    decreases |ops|
  {
    ops == [] ||
    (CanKStep(c, k, ops[0]) && (KStepKeeps(c, k, ops[0]); CanKRun(c, KStep(c, k, ops[0]), ops[1..])))
  }

  ghost function KRun(c: Config, k: KHeap, ops: seq<KOp>): KHeap
    requires KOk(c, k) && CanKRun(c, k, ops)
    decreases |ops|
  {
    if ops == [] then k
    else
      KStepKeeps(c, k, ops[0]);
      KRun(c, KStep(c, k, ops[0]), ops[1..])
  }

  /** A run is its operations one after another. */
  lemma {:induction false} KRunGoesOn(c: Config, k: KHeap, ops: seq<KOp>, op: KOp)
    requires KOk(c, k) && CanKRun(c, k, ops) && KOk(c, KRun(c, k, ops))
    ensures CanKRun(c, k, ops + [op]) <==> CanKStep(c, KRun(c, k, ops), op)
    ensures CanKRun(c, k, ops + [op]) ==> KRun(c, k, ops + [op]) == KStep(c, KRun(c, k, ops), op)
    decreases |ops|
  {
    hide KOk, KStep, CanKStep;
    if ops == [] {
      assert ops + [op] == [op] && [op][1..] == [];
    } else {
      assert (ops + [op])[0] == ops[0] && (ops + [op])[1..] == ops[1..] + [op];
      KStepKeeps(c, k, ops[0]);
      KRunGoesOn(c, KStep(c, k, ops[0]), ops[1..], op);
    }
  }

  lemma {:induction false} KRunKeeps(c: Config, k: KHeap, ops: seq<KOp>)
    requires KOk(c, k) && CanKRun(c, k, ops)
    ensures KOk(c, KRun(c, k, ops))
    decreases |ops|
  {
    hide KOk, KStep, CanKStep;
    if ops != [] {
      KStepKeeps(c, k, ops[0]);
      KRunKeeps(c, KStep(c, k, ops[0]), ops[1..]);
    }
  }

  /** After every run: of a live allocation's whole footprint exactly the requested bytes are
      addressable - not the padding behind them, and neither redzone. */
  lemma RunExact(c: Config, k: KHeap, ops: seq<KOp>, p: nat, a: nat)
    requires KOk(c, k) && CanKRun(c, k, ops) && KOwns(c, KRun(c, k, ops), p)
    requires p in KRun(c, k, ops).sizes ==> p - c.align <= a < p - c.align + Total(c, KRun(c, k, ops).sizes[p])
    ensures var k' := KRun(c, k, ops);
            p in k'.sizes && a / GRANULE < |k'.shadow| && (Addressable(k'.shadow, a) <==> p <= a < p + k'.sizes[p])
  {
    hide KOk, BlockOk, Addressable, RoundUp, KRun, CanKRun, Owns;
    KRunKeeps(c, k, ops);
    OwnedExact(c, KRun(c, k, ops), p, a);
  }

  lemma OwnedExact(c: Config, k: KHeap, p: nat, a: nat)
    requires KOk(c, k) && KOwns(c, k, p)
    requires p in k.sizes ==> p - c.align <= a < p - c.align + Total(c, k.sizes[p])
    ensures p in k.sizes && a / GRANULE < |k.shadow| && (Addressable(k.shadow, a) <==> p <= a < p + k.sizes[p])
  {
    hide KOk, BlockOk, Addressable, RoundUp, KOwns;
    Owned(c, k, p);
  }

  /** The bytes in front of and behind a live allocation of n bytes, r bytes when rounded up to 8: the
      alignment unit in front, the rest of the last 8 and 32 more are closed, and inside the block. */
  ghost predicate Fenced(c: Config, k: KHeap, p: nat, n: nat, r: nat)
    requires KOwns(c, k, p)
  {
    && BlockAt(c, k, p).addr + 2 * c.align == p && p + r + 32 <= BlockAt(c, k, p).addr + c.align + |BlockAt(c, k, p).data|
    && forall a :: p - c.align <= a < p || p + n <= a < p + r + 32 ==> a / 8 < |k.shadow| && !Addressable(k.shadow, a)
  }

  /** So is it fenced with its own size, and an access of `size` bytes right behind it is reported, as is
      one that ends right in front of it. */
  ghost predicate Guarded(c: Config, k: KHeap, p: nat, size: nat)
    requires KOwns(c, k, p) && size > 0
  {
    && p in k.sizes
    && (forall r :: k.sizes[p] <= r < k.sizes[p] + 8 && r % 8 == 0 ==> Fenced(c, k, p, k.sizes[p], r))
    && (p + k.sizes[p] + size - 1) / 8 < |k.shadow| && Poisoned(k.shadow, p + k.sizes[p], size) != -1
    && size <= p && Poisoned(k.shadow, p - size, size) != -1
  }

  /** After every run, for all accesses of up to 32 bytes. */
  lemma RunFenced(c: Config, k: KHeap, ops: seq<KOp>, p: nat, size: nat)
    requires KOk(c, k) && CanKRun(c, k, ops) && KOwns(c, KRun(c, k, ops), p) && 1 <= size <= 32
    ensures Guarded(c, KRun(c, k, ops), p, size)
  {
    hide KOk, KRun, CanKRun, KOwns, Guarded;
    KRunKeeps(c, k, ops);
    OwnedFenced(c, KRun(c, k, ops), p, size);
  }

  lemma OwnedFenced(c: Config, k: KHeap, p: nat, size: nat)
    requires KOk(c, k) && KOwns(c, k, p) && 1 <= size <= 32
    ensures Guarded(c, k, p, size)
  {
    hide BlockOk, Addressable, Poisoned, AllProper, KOwns, HeaderWord, Exact, KOk;
    KTiled(c, k);
    Owned(c, k, p);
    var n := k.sizes[p];
    RoundedIs(n);
    assert Total(c, n) == RoundUp(n) + c.align + 32;
    OwnedFence(c, k, p);
    OwnedChecked(c, k, p, p + n, size);
    OwnedChecked(c, k, p, p - size, size);
  }

  lemma OwnedFence(c: Config, k: KHeap, p: nat)
    requires KOk(c, k) && KOwns(c, k, p) && p in k.sizes
    ensures Fenced(c, k, p, k.sizes[p], RoundUp(k.sizes[p]))
  {
    hide BlockOk, Addressable, HeaderWord, KOk, AllProper, RoundUp;
    KTiled(c, k);
    Owned(c, k, p);
  }

  lemma RoundedIs(n: nat)
    ensures forall r :: n <= r < n + 8 && r % 8 == 0 ==> r == RoundUp(n)
  {
    hide RoundUp;
    assert GRANULE == 8;
  }

  /** `p` is an allocation of n bytes, guarded against all accesses of up to 32 bytes. */
  ghost predicate AllGuarded(c: Config, k: KHeap, p: nat, n: nat) {
    && KOwns(c, k, p) && p in k.sizes && k.sizes[p] == n
    && forall size: nat :: 1 <= size <= 32 ==> Guarded(c, k, p, size)
  }

  lemma AllocatedGuarded(c: Config, k: KHeap, n: nat)
    requires KOk(c, k) && Fitting(c, n) && KAllocate(c, k, n).1 != 0
    ensures var (k', p) := KAllocate(c, k, n); AllGuarded(c, k', p, n)
  {
    hide KOk, KAllocate, KOwns, Guarded;
    KAllocateKeeps(c, k, n);
    KAllocateOwned(c, k, n);
    var (k', p) := KAllocate(c, k, n);
    forall size: nat | 1 <= size <= 32 ensures Guarded(c, k', p, size) { OwnedFenced(c, k', p, size); }
  }

  /** The shadow bytes of a fresh allocation's redzones. */
  lemma RedzoneTags(c: Config, shadow: seq<u8>, ptr: nat, n: nat, a: nat)
    requires ptr % GRANULE == 0 && c.align % GRANULE == 0 && (ptr + Total(c, n)) / GRANULE <= |shadow|
    requires a / 8 < |shadow|
    ensures ptr <= a < ptr + c.align ==> MarkAllocated(c, shadow, ptr, n)[a / 8] == 0xfa
    ensures ptr + c.align + RoundUp(n) <= a < ptr + Total(c, n) ==> MarkAllocated(c, shadow, ptr, n)[a / 8] == 0xfb
  {
    hide Unpoison, RoundUp, Poison;
    var p := ptr + c.align;
    RoundUpShift(p, n);
    EndsOnGranule(ptr, c.align);
    EndsOnGranule(p, RoundUp(n));
    var s1 := Unpoison(shadow, p, n);
    PoisonByte(s1, ptr, c.align, HEAP_HEAD_REDZONE, a);
    PoisonByte(Poison(s1, ptr, c.align, HEAP_HEAD_REDZONE), p + RoundUp(n), TAIL, HEAP_TAIL_REDZONE, a);
  }

  /** And those of a payload just freed. */
  lemma FreedTags(c: Config, k: KHeap, p: nat, a: nat)
    requires KOk(c, k) && KOwns(c, k, p) && p in k.sizes && p <= a < p + k.sizes[p] && RoundUp(k.sizes[p]) < U32
    ensures a / 8 < |KFree(c, k, p).shadow| && KFree(c, k, p).shadow[a / 8] == 0xfd
  {
    hide KOk, BlockOk, Free, Poison, RoundUp, HeaderWord, Swept, Exact, Total, KOwns, Addressable;
    KTiled(c, k);
    Owned(c, k, p);
    var w := HeaderWord(BlockAt(c, k, p));
    assert p != 0 && a < p + w;
    assert KFree(c, k, p).shadow == Poison(k.shadow, p, w, HEAP_FREE);
    hide KFree, Tagged;
    EndsOnGranule(p, w);
    BelowShadow(a, p + w, |k.shadow|);
    PoisonByte(k.shadow, p, w, HEAP_FREE, a);
  }

  lemma EndsOnGranule(p: nat, w: nat)
    requires p % GRANULE == 0 && w % GRANULE == 0
    ensures (p + w) % GRANULE == 0
  {
  }

  lemma PoisonByte(shadow: seq<u8>, address: nat, size: nat, v: u8, a: nat)
    requires address % GRANULE == 0 && size % GRANULE == 0 && (address + size) / GRANULE <= |shadow|
    requires a / GRANULE < |shadow|
    ensures Poison(shadow, address, size, v)[a / GRANULE] == if address <= a < address + size then v else shadow[a / GRANULE]
  {
  }

  /** The checker agrees: an access that stays in the footprint is let through exactly when it
      stays in the requested bytes. */
  lemma RunChecked(c: Config, k: KHeap, ops: seq<KOp>, p: nat, addr: nat, size: nat)
    requires KOk(c, k) && CanKRun(c, k, ops) && KOwns(c, KRun(c, k, ops), p) && p in KRun(c, k, ops).sizes && size > 0
    requires p - c.align <= addr && addr + size <= p - c.align + Total(c, KRun(c, k, ops).sizes[p])
    ensures var k' := KRun(c, k, ops);
            && (addr + size - 1) / GRANULE < |k'.shadow|
            && (Poisoned(k'.shadow, addr, size) == -1 <==> p <= addr && addr + size <= p + k'.sizes[p])
  {
    KRunKeeps(c, k, ops);
    hide KOk, KRun, CanKRun, KOwns, Poisoned, Addressable;
    OwnedChecked(c, KRun(c, k, ops), p, addr, size);
  }

  lemma OwnedChecked(c: Config, k: KHeap, p: nat, addr: nat, size: nat)
    requires KOk(c, k) && KOwns(c, k, p) && p in k.sizes && size > 0
    requires p - c.align <= addr && addr + size <= p - c.align + Total(c, k.sizes[p])
    ensures (addr + size - 1) / GRANULE < |k.shadow|
    ensures Poisoned(k.shadow, addr, size) == -1 <==> p <= addr && addr + size <= p + k.sizes[p]
  {
    assert AllProper(k.shadow) && 0 < c.align by { assert c.Ok(); }
    hide KOk, BlockOk, Addressable, RoundUp, Poisoned, AllProper, KOwns, HeaderWord, Exact, Total;
    Owned(c, k, p);
    ExactChecked(c, k.shadow, p - c.align, k.sizes[p], addr, size);
  }

  lemma ExactChecked(c: Config, shadow: seq<u8>, ptr: nat, n: nat, addr: nat, size: nat)
    requires Exact(c, shadow, ptr, n) && AllProper(shadow) && size > 0 && 0 < c.align
    requires ptr <= addr && addr + size <= ptr + Total(c, n)
    ensures (addr + size - 1) / GRANULE < |shadow|
    ensures Poisoned(shadow, addr, size) == -1
       <==> ptr + c.align <= addr && addr + size <= ptr + c.align + n
  {
    hide Addressable, Poisoned, AllProper;
    CheckerExact(shadow, addr, size);
    var p := ptr + c.align;
    if !(p <= addr && addr + size <= p + n) {
      var x := if addr < p then addr else addr + size - 1;
      assert !Addressable(shadow, x);
    }
  }

  /** No payload byte of block i is addressable exactly when its rounded size fits the header's
      32 bits; otherwise what lies beyond them stays open. */
  ghost predicate Forgotten(c: Config, k: KHeap, i: nat)
    requires i < |k.h.blocks|
  {
    var p := k.h.blocks[i].addr + 2 * c.align;
    && p in k.sizes && Swept(c, k.shadow, p - c.align, k.sizes[p])
    && (0 < k.sizes[p] ==>
          (RoundUp(k.sizes[p]) < U32 <==>
           forall a :: p <= a < p + k.sizes[p] ==> a / GRANULE < |k.shadow| && !Addressable(k.shadow, a)))
  }

  /** After every run that holds of every freed, not reused block. */
  lemma RunSwept(c: Config, k: KHeap, ops: seq<KOp>, i: nat)
    requires KOk(c, k) && CanKRun(c, k, ops) && i < |KRun(c, k, ops).h.blocks|
    requires !KRun(c, k, ops).h.blocks[i].status.Live?
    ensures Forgotten(c, KRun(c, k, ops), i)
  {
    hide KOk, KRun, CanKRun, Forgotten;
    KRunKeeps(c, k, ops);
    FreedSwept(c, KRun(c, k, ops), i);
  }

  lemma FreedSwept(c: Config, k: KHeap, i: nat)
    requires KOk(c, k) && i < |k.h.blocks| && !k.h.blocks[i].status.Live?
    ensures Forgotten(c, k, i)
  {
    hide KOk, BlockOk, Addressable, RoundUp, Swept, HeaderWord, Total;
    KnownSize(c, k, i);
    var p := k.h.blocks[i].addr + 2 * c.align;
    if 0 < k.sizes[p] { SweptMeans(c, k.shadow, p - c.align, k.sizes[p]); }
  }

  lemma CutIsLess(n: nat)
    requires RoundUp(n) >= U32
    ensures RoundUp(n) % U32 < n
  {
    hide RoundUp;
    assert RoundUp(n) % U32 <= RoundUp(n) - U32;
  }

  lemma SweptMeans(c: Config, shadow: seq<u8>, ptr: nat, n: nat)
    requires Swept(c, shadow, ptr, n) && 0 < n
    ensures RoundUp(n) < U32 <==>
            forall a :: ptr + c.align <= a < ptr + c.align + n ==> a / GRANULE < |shadow| && !Addressable(shadow, a)
  {
    hide Addressable;
    HeaderFits(n);
    if RoundUp(n) >= U32 {
      var a := ptr + c.align + RoundUp(n) % U32;
      CutIsLess(n);
      assert Addressable(shadow, a);
    }
  }

  /** Freeing a block of 2^32 bytes or more leaves one of its payload bytes addressable, on every heap
      that has room for it. */
  lemma HugeRelease(c: Config, k: KHeap, n: nat)
    requires KOk(c, k) && Fitting(c, n) && U32 <= RoundUp(n) && KAllocate(c, k, n).1 != 0
    ensures var ops := [KAlloc(n), KRelease(KAllocate(c, k, n).1)];
            CanKRun(c, k, ops) && LeftOpen(c, KRun(c, k, ops), KAllocate(c, k, n).1, n)
  {
    hide KOk, KAllocate, KFree, LeftOpen;
    var (k1, p) := KAllocate(c, k, n);
    KAllocateKeeps(c, k, n);
    KAllocateOwned(c, k, n);
    KFreeKeeps(c, k1, p);
    var ops := [KAlloc(n), KRelease(p)];
    assert ops[1..] == [KRelease(p)] && ops[1..][1..] == [];
    assert CanKRun(c, KFree(c, k1, p), []);
    assert CanKRun(c, k1, ops[1..]);
    assert KRun(c, k1, ops[1..]) == KFree(c, k1, p);
    ReleasedOpen(c, k1, p, n);
  }

  /** The block behind `p` is freed, and a byte of its `n` is addressable. */
  ghost predicate LeftOpen(c: Config, k: KHeap, p: nat, n: nat) {
    && (exists i :: 0 <= i < |k.h.blocks| && k.h.blocks[i].addr + 2 * c.align == p && !k.h.blocks[i].status.Live?)
    && (exists a :: p <= a < p + n && a / GRANULE < |k.shadow| && Addressable(k.shadow, a))
  }

  lemma KAllocateOwned(c: Config, k: KHeap, n: nat)
    requires KOk(c, k) && Fitting(c, n) && KAllocate(c, k, n).1 != 0
    ensures var (k1, p) := KAllocate(c, k, n); KOwns(c, k1, p) && p in k1.sizes && k1.sizes[p] == n
  {
    hide HeapOk, Allocate, MarkAllocated, Write, BlockOk, Tagged, Addressable, KOk, RoundUp;
    KTiled(c, k);
    var (h1, ptr) := Allocate(c, k.h, Total(c, n));
    AllocatePlace(c, k.h, Total(c, n));
    KAllocateKeeps(c, k, n);
    HeaderWritten(c, h1, ptr, RoundUp(n) % U32);
    KTiled(c, KAllocate(c, k, n).0);
    FindsItself(c, KAllocate(c, k, n).0.h, At(c, h1, ptr));
  }

  lemma KTiled(c: Config, k: KHeap)
    requires KOk(c, k)
    ensures HeapOk(c, k.h) && Tiled(c, k.h) && 32 <= c.align
  {
    hide Tiled, BlockOk, Tagged, ListsOk;
  }

  lemma FreedThere(c: Config, k: KHeap, p: nat)
    requires KOk(c, k) && p != 0 && KOwns(c, k, p)
    ensures var i, k' := At(c, k.h, p - c.align), KFree(c, k, p);
            && i < |k'.h.blocks| && k'.h.blocks[i].addr + 2 * c.align == p && !k'.h.blocks[i].status.Live?
            && k'.sizes == k.sizes
  {
    hide HeapOk, BlockOk, Tagged, Total, Addressable, RoundUp, Poison, At;
    Owned(c, k, p);
  }

  lemma ReleasedOpen(c: Config, k: KHeap, p: nat, n: nat)
    requires KOk(c, k) && p != 0 && KOwns(c, k, p) && p in k.sizes && k.sizes[p] == n && U32 <= RoundUp(n)
    ensures LeftOpen(c, KFree(c, k, p), p, n)
  {
    hide HeapOk, BlockOk, Tagged, Total, Addressable, RoundUp, Free, KOk, KFree;
    KFreeKeeps(c, k, p);
    Owned(c, k, p);
    var i, k' := At(c, k.h, p - c.align), KFree(c, k, p);
    FreedThere(c, k, p);
    FreedSwept(c, k', i);
  }

  /** On a 64-bit machine there is such a heap. */
  lemma HugeReleaseHappens(c: Config, k: KHeap)
    requires c == Config(64, 8, [])
    requires k == KHeap(Heap(64, 64 + 2 * U32, 0, [], [], Repeat<u8>(0, 2 * U32)), Repeat<u8>(0, 2 * U32), map[])
    ensures KOk(c, k) && Fitting(c, U32) && U32 <= RoundUp(U32) && KAllocate(c, k, U32).1 != 0
  {
    InitialOk(c, 64, 64 + 2 * U32, 0, k.h.arena, k.shadow);
  }
}
