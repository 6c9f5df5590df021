/**
 What CHeapAllocator promises, on values: a region tiled by blocks in address order, one
 free list per bucket, and the untouched rest of the region. The operations follow the code
 branch by branch, wrap-around of the size arithmetic included.
 */
module HeapSpec {
  import opened Basics
  import opened Ram

  /** Target constants: the largest cache line (block alignment and header size), the pointer
      width in bytes, and the configured bucket sizes. */
  datatype Config = Config(align: nat, ptrBytes: nat, buckets: seq<nat>) {
    ghost predicate Ok() {
      && (align == 32 || align == 64)
      && (ptrBytes == 4 || ptrBytes == 8)
      && |buckets| <= 20
      && (forall b :: 0 <= b < |buckets| ==> 0 < buckets[b] && buckets[b] + 2 * align <= U32)
      && (forall a, b :: 0 <= a < b < |buckets| ==> buckets[a] < buckets[b])
    }

    /** One more than the largest address. */
    function Word(): nat {
      if ptrBytes == 8 then 0x1_0000_0000_0000_0000 else 0x1_0000_0000
    }

    /** The sum of two machine words wraps. */
    function Wrap(x: nat): nat
      requires x < 2 * Word()
    {
      if x < Word() then x else x - Word()
    }

    predicate Aligned(x: nat) {
      if align == 64 then x % 64 == 0 else x % 32 == 0
    }

    /** `x & ~HEAP_ALIGN_MASK`. */
    function AlignDown(x: nat): (r: nat)
      ensures r <= x
    {
      if align == 64 then x - x % 64 else x - x % 32
    }
  }

  datatype Status =
    | Live(requested: nat)  // handed out for a request of that many bytes
    | Listed(bucket: nat)   // on that bucket's free list
    | Lost                  // freed, but too large for any bucket

  /** `size` is the header field, `data` every byte behind the header. */
  datatype Block = Block(addr: nat, size: nat, data: seq<u8>, status: Status)

  datatype Heap = Heap(base: nat, limit: nat, reserve: nat,
                       blocks: seq<Block>, lists: seq<seq<nat>>, arena: seq<u8>)

  function End(c: Config, b: Block): nat {
    b.addr + c.align + |b.data|
  }

  function Next(h: Heap): int {
    h.limit - |h.arena|
  }

  // ---------------------------------------------------------------- the invariant

  ghost predicate Tiled(c: Config, h: Heap) {
    && (|h.blocks| > 0 ==> h.blocks[0].addr == h.base)
    && (forall i :: 0 < i < |h.blocks| ==> h.blocks[i].addr == End(c, h.blocks[i - 1]))
    && Next(h) == if |h.blocks| == 0 then h.base else End(c, h.blocks[|h.blocks| - 1])
  }

  ghost predicate BlockOk(c: Config, b: Block) {
    && 0 < b.addr
    && c.Aligned(b.addr)
    && c.Aligned(|b.data|)
    && b.size < U32
    && (b.size in c.buckets ==> b.size <= |b.data|)
    && (b.status.Listed? ==> b.status.bucket < |c.buckets| && b.size == c.buckets[b.status.bucket])
    && (b.status.Lost? ==> b.size !in c.buckets)
  }

  ghost predicate ListsOk(c: Config, h: Heap) {
    && |h.lists| == |c.buckets|
    && (forall i :: 0 <= i < |h.blocks| && h.blocks[i].status.Listed? ==>
          h.blocks[i].status.bucket < |h.lists| && i in h.lists[h.blocks[i].status.bucket])
    && (forall b, k :: 0 <= b < |h.lists| && 0 <= k < |h.lists[b]| ==>
          h.lists[b][k] < |h.blocks| && h.blocks[h.lists[b][k]].status == Listed(b))
    && (forall b, j, k :: 0 <= b < |h.lists| && 0 <= j < k < |h.lists[b]| ==>
          h.lists[b][j] != h.lists[b][k])
  }

  ghost predicate HeapOk(c: Config, h: Heap) {
    && c.Ok()
    && c.Aligned(h.base)
    && (h.base == 0 ==> |h.blocks| == 0)
    && h.limit < c.Word()
    && h.reserve <= h.limit && (h.blocks != [] ==> h.reserve <= |h.arena|)
    && Tiled(c, h)
    && (forall i :: 0 <= i < |h.blocks| ==> BlockOk(c, h.blocks[i]))
    && ListsOk(c, h)
  }

  // ---------------------------------------------------------------- lookups

  /** The index of a block with that address, or the number of blocks. */
  ghost function Find(blocks: seq<Block>, addr: int): (i: nat)
    ensures i <= |blocks|
    ensures i < |blocks| ==> blocks[i].addr == addr
  {
    if Has(blocks, addr) then
      var i :| 0 <= i < |blocks| && blocks[i].addr == addr; i
    else |blocks|
  }

  ghost predicate Has(blocks: seq<Block>, addr: int) {
    exists i :: 0 <= i < |blocks| && blocks[i].addr == addr
  }

  /** The index of the block whose payload starts at `p`. */
  ghost function At(c: Config, h: Heap, p: nat): (i: nat)
    ensures i <= |h.blocks|
  {
    Find(h.blocks, p - c.align)
  }

  /** `p` is a pointer the allocator handed out and has not taken back. */
  ghost predicate Owns(c: Config, h: Heap, p: nat) {
    At(c, h, p) < |h.blocks| && h.blocks[At(c, h, p)].status.Live?
  }

  /** The first bucket from `b` on that is large enough for `n`, or the number of buckets. */
  function FirstFit(buckets: seq<nat>, n: nat, b: nat := 0): (r: nat)
    requires b <= |buckets|
    ensures b <= r <= |buckets|
    ensures r < |buckets| ==> n <= buckets[r]
    ensures forall k :: b <= k < r ==> buckets[k] < n
    decreases |buckets| - b
  {
    if b == |buckets| || n <= buckets[b] then b else FirstFit(buckets, n, b + 1)
  }

  /** The first bucket from `b` on of exactly that size, or the number of buckets. */
  function ExactFit(buckets: seq<nat>, n: nat, b: nat := 0): (r: nat)
    requires b <= |buckets|
    ensures b <= r <= |buckets|
    ensures r < |buckets| ==> n == buckets[r]
    ensures forall k :: b <= k < r ==> buckets[k] != n
    decreases |buckets| - b
  {
    if b == |buckets| || n == buckets[b] then b else ExactFit(buckets, n, b + 1)
  }

  // ---------------------------------------------------------------- the operations

  /** Header plus payload, rounded up to the alignment; the sum may wrap. */
  function Extent(c: Config, size: nat): (e: nat)
    requires c.Ok() && size < c.Word()
    ensures c.Aligned(e) && e < c.Word()
  {
    c.AlignDown(c.Wrap(c.align + size + c.align - 1))
  }

  /** The request as the bucket search rounds it. */
  function Rounded(c: Config, n: nat): (size: nat)
    ensures n <= size
    ensures c.Ok() && n < c.Word() ==> size < c.Word()
  {
    var b := FirstFit(c.buckets, n);
    if b < |c.buckets| then c.buckets[b] else n
  }

  predicate Recycles(c: Config, h: Heap, n: nat)
    requires |h.lists| == |c.buckets|
  {
    var b := FirstFit(c.buckets, n);
    b < |c.buckets| && h.lists[b] != []
  }

  /** A fresh block fits between the bump pointer and the reserve. */
  predicate Fits(c: Config, h: Heap, extent: nat)
    requires 0 <= Next(h) < c.Word() && extent < c.Word()
  {
    var next := c.Wrap(Next(h) + extent);
    Next(h) < next <= h.limit - h.reserve
  }

  function Allocate(c: Config, h: Heap, n: nat): (r: (Heap, nat))
    requires HeapOk(c, h) && n < c.Word()
  {
    if Next(h) == 0 then (h, 0)
    else if Recycles(c, h, n) then Recycle(c, h, n)
    else if Fits(c, h, Extent(c, Rounded(c, n))) then Bump(c, h, n)
    else (h.(reserve := 0), 0)
  }

  /** Pop the bucket's free list. */
  function Recycle(c: Config, h: Heap, n: nat): (r: (Heap, nat))
    requires ListsOk(c, h) && Recycles(c, h, n)
  {
    var b := FirstFit(c.buckets, n);
    var i := h.lists[b][0];
    (h.(lists := h.lists[b := h.lists[b][1..]],
        blocks := h.blocks[i := h.blocks[i].(status := Live(n))]),
     h.blocks[i].addr + c.align)
  }

  /** Take a fresh block from the untouched region. */
  function Bump(c: Config, h: Heap, n: nat): (r: (Heap, nat))
    requires HeapOk(c, h) && n < c.Word() && Next(h) != 0
    requires Fits(c, h, Extent(c, Rounded(c, n)))
  {
    var size := Rounded(c, n);
    var extent := Extent(c, size);
    FitsBounds(c, h, extent);
    (h.(blocks := h.blocks + [Block(Next(h), size % U32, h.arena[c.align..extent], Live(n))],
        arena := h.arena[extent..]),
     Next(h) + c.align)
  }

  ghost function Free(c: Config, h: Heap, p: nat): (r: Heap)
    requires HeapOk(c, h) && (p == 0 || Owns(c, h, p))
  {
    if p == 0 then h
    else
      var i := At(c, h, p);
      var b := ExactFit(c.buckets, h.blocks[i].size);
      if b < |c.buckets| then
        h.(lists := h.lists[b := [i] + h.lists[b]],
           blocks := h.blocks[i := h.blocks[i].(status := Listed(b))])
      else
        h.(blocks := h.blocks[i := h.blocks[i].(status := Lost)])
  }

  /** The caller writes `bytes` at `p + offset`. */
  ghost function Write(c: Config, h: Heap, p: nat, offset: nat, bytes: seq<u8>): (r: Heap)
    requires Owns(c, h, p) && offset + |bytes| <= |h.blocks[At(c, h, p)].data|
  {
    var i := At(c, h, p);
    var d := h.blocks[i].data;
    h.(blocks := h.blocks[i := h.blocks[i].(data := d[..offset] + bytes + d[offset + |bytes|..])])
  }

  lemma FitsBounds(c: Config, h: Heap, extent: nat)
    requires HeapOk(c, h) && Next(h) >= 0 && c.Aligned(extent) && extent < c.Word()
    requires Fits(c, h, extent)
    ensures c.align <= extent <= |h.arena| - h.reserve
  {
  }

  // ---------------------------------------------------------------- separation

  /** Blocks lie in address order without overlap, inside [base, next). */
  lemma {:induction false} Separated(c: Config, h: Heap, i: nat, j: nat)
    requires Tiled(c, h) && i <= j < |h.blocks|
    ensures h.base <= h.blocks[i].addr
    ensures i < j ==> End(c, h.blocks[i]) <= h.blocks[j].addr
    ensures End(c, h.blocks[j]) <= Next(h)
    decreases j, |h.blocks| - j, i
  {
    BaseBelow(c, h, i);
    AfterAt(c, h, i, j);
    BelowNext(c, h, j);
  }

  lemma {:induction false} BaseBelow(c: Config, h: Heap, i: nat)
    requires Tiled(c, h) && i < |h.blocks|
    ensures h.base <= h.blocks[i].addr
  {
    if i > 0 { BaseBelow(c, h, i - 1); }
  }

  lemma {:induction false} AfterAt(c: Config, h: Heap, i: nat, j: nat)
    requires Tiled(c, h) && i <= j < |h.blocks|
    ensures i < j ==> End(c, h.blocks[i]) <= h.blocks[j].addr
    decreases j
  {
    if i + 1 < j { AfterAt(c, h, i, j - 1); }
  }

  lemma {:induction false} BelowNext(c: Config, h: Heap, j: nat)
    requires Tiled(c, h) && j < |h.blocks|
    ensures End(c, h.blocks[j]) <= Next(h)
  {
    AfterAt(c, h, j, |h.blocks| - 1);
  }

  /** A block is found by its address. */
  lemma FindsItself(c: Config, h: Heap, i: nat)
    requires Tiled(c, h) && c.align > 0 && i < |h.blocks|
    ensures Find(h.blocks, h.blocks[i].addr) == i
    ensures At(c, h, h.blocks[i].addr + c.align) == i
  {
    assert Has(h.blocks, h.blocks[i].addr);
    var k := Find(h.blocks, h.blocks[i].addr);
    if k < i { AfterAt(c, h, k, i); }
    if i < k < |h.blocks| { AfterAt(c, h, i, k); }
  }

  // ---------------------------------------------------------------- the invariant is kept

  lemma AllocateKeeps(c: Config, h: Heap, n: nat)
    requires HeapOk(c, h) && n < c.Word()
    ensures HeapOk(c, Allocate(c, h, n).0)
  {
    if Next(h) != 0 {
      if Recycles(c, h, n) {
        RecycleKeeps(c, h, n);
      } else if Fits(c, h, Extent(c, Rounded(c, n))) {
        BumpKeeps(c, h, n);
      }
    }
  }

  /** Changing one block's status leaves the tiling alone. */
  lemma Restatus(c: Config, h: Heap, h': Heap, i: nat, st: Status)
    requires Tiled(c, h) && i < |h.blocks|
    requires forall j :: 0 <= j < |h.blocks| ==> BlockOk(c, h.blocks[j])
    requires h'.blocks == h.blocks[i := h.blocks[i].(status := st)] && BlockOk(c, h'.blocks[i])
    requires h'.base == h.base && Next(h') == Next(h)
    ensures Tiled(c, h')
    ensures forall j :: 0 <= j < |h'.blocks| ==> BlockOk(c, h'.blocks[j])
  {
  }

  /** The head of a free list is a listed block of that bucket. */
  lemma ListHead(c: Config, h: Heap, b: nat)
    requires HeapOk(c, h) && b < |h.lists| && h.lists[b] != []
    ensures |h.lists| == |c.buckets| && c.Ok()
    ensures var i := h.lists[b][0];
            && i < |h.blocks| && h.blocks[i].status == Listed(b)
            && h.blocks[i].size == c.buckets[b] <= |h.blocks[i].data|
  {
    var i := h.lists[b][0];
    assert h.blocks[i].status == Listed(b);
    assert BlockOk(c, h.blocks[i]);
    hide ListsOk, Tiled;
    assert c.buckets[b] in c.buckets;
  }

  lemma RecycleKeeps(c: Config, h: Heap, n: nat)
    requires HeapOk(c, h) && n < c.Word() && Recycles(c, h, n)
    ensures HeapOk(c, Recycle(c, h, n).0)
  {
    var b := FirstFit(c.buckets, n);
    var i := h.lists[b][0];
    assert BlockOk(c, h.blocks[i]);
    PopKeepsLists(c, h, b, n);
    Restatus(c, h, Recycle(c, h, n).0, i, Live(n));
  }

  lemma PopKeepsLists(c: Config, h: Heap, b: nat, n: nat)
    requires ListsOk(c, h) && b < |h.lists| && h.lists[b] != []
    ensures var i := h.lists[b][0];
            i < |h.blocks| && ListsOk(c, h.(lists := h.lists[b := h.lists[b][1..]],
                                            blocks := h.blocks[i := h.blocks[i].(status := Live(n))]))
  {
    var i := h.lists[b][0];
    assert h.blocks[i].status == Listed(b);
    var h' := h.(lists := h.lists[b := h.lists[b][1..]],
                 blocks := h.blocks[i := h.blocks[i].(status := Live(n))]);
    forall j | 0 <= j < |h'.blocks| && h'.blocks[j].status.Listed?
      ensures h'.blocks[j].status.bucket < |h'.lists| && j in h'.lists[h'.blocks[j].status.bucket]
    {
      var a := h.blocks[j].status.bucket;
      var k :| 0 <= k < |h.lists[a]| && h.lists[a][k] == j;
      if a == b { assert h'.lists[b][k - 1] == j; }
    }
  }

  lemma BumpKeeps(c: Config, h: Heap, n: nat)
    requires HeapOk(c, h) && n < c.Word() && Next(h) != 0
    requires Fits(c, h, Extent(c, Rounded(c, n)))
    ensures HeapOk(c, Bump(c, h, n).0)
  {
    var h' := Bump(c, h, n).0;
    var extent := Extent(c, Rounded(c, n));
    FitsBounds(c, h, extent);
    NextAligned(c, h);
    forall j | 0 <= j < |h'.blocks| ensures BlockOk(c, h'.blocks[j]) {
      if j == |h.blocks| { BumpBlockOk(c, Next(h), h'.blocks[j].data, n); }
    }
  }

  lemma BumpBlockOk(c: Config, addr: nat, data: seq<u8>, n: nat)
    requires c.Ok() && n < c.Word() && 0 < addr && c.Aligned(addr)
    requires 0 < Extent(c, Rounded(c, n)) == c.align + |data|
    ensures BlockOk(c, Block(addr, Rounded(c, n) % U32, data, Live(n)))
  {
    BucketFits(c, n);
    AlignedLess(c, Extent(c, Rounded(c, n)));
  }

  lemma AlignedLess(c: Config, x: nat)
    requires c.Ok() && c.Aligned(x) && c.align <= x
    ensures c.Aligned(x - c.align)
  {
  }

  /** If the header's 32-bit size is a bucket size, the block is at least that large. */
  lemma BucketFits(c: Config, n: nat)
    requires c.Ok() && n < c.Word() && 0 < Extent(c, Rounded(c, n))
    ensures Rounded(c, n) % U32 in c.buckets ==> Rounded(c, n) % U32 <= Extent(c, Rounded(c, n)) - c.align
  {
    var size := Rounded(c, n);
    ExtentCovers(c, size);
    assert size > c.Word() - c.align ==> size % U32 > U32 - c.align;
  }

  lemma NextAligned(c: Config, h: Heap)
    requires HeapOk(c, h)
    ensures Next(h) >= 0 && c.Aligned(Next(h))
  {
    hide ListsOk;
    if |h.blocks| > 0 {
      var b := h.blocks[|h.blocks| - 1];
      assert BlockOk(c, b);
      AlignedSum(c, b.addr, |b.data|);
    }
  }

  lemma AlignedSum(c: Config, x: nat, y: nat)
    requires c.align == 32 || c.align == 64
    requires c.Aligned(x) && c.Aligned(y)
    ensures c.Aligned(x + c.align + y)
  {
    if c.align == 64 {
      assert x == 64 * (x / 64) && y == 64 * (y / 64);
      assert x + 64 + y == 64 * (x / 64 + 1 + y / 64);
    } else {
      assert x == 32 * (x / 32) && y == 32 * (y / 32);
      assert x + 32 + y == 32 * (x / 32 + 1 + y / 32);
    }
  }

  /** The rounded extent covers the payload exactly when the request is at most one alignment
      unit below the top of the address space; a larger request wraps. */
  lemma ExtentCovers(c: Config, size: nat)
    requires c.Ok() && size < c.Word()
    ensures c.Aligned(Extent(c, size)) && Extent(c, size) < c.Word()
    ensures 0 < Extent(c, size) ==> (c.align + size <= Extent(c, size) <==> size <= c.Word() - c.align)
    ensures c.Word() - 2 * c.align < size <= c.Word() - c.align ==> Extent(c, size) == 0
  {
  }

  lemma FreeKeeps(c: Config, h: Heap, p: nat)
    requires HeapOk(c, h) && (p == 0 || Owns(c, h, p))
    ensures HeapOk(c, Free(c, h, p))
  {
    if p != 0 {
      var i := At(c, h, p);
      var b := ExactFit(c.buckets, h.blocks[i].size);
      assert BlockOk(c, h.blocks[i]);
      if b < |c.buckets| {
        PushKeepsLists(c, h, i, b);
        Restatus(c, h, Free(c, h, p), i, Listed(b));
      } else {
        LoseKeepsLists(c, h, i);
        Restatus(c, h, Free(c, h, p), i, Lost);
      }
    }
  }

  lemma PushKeepsLists(c: Config, h: Heap, i: nat, b: nat)
    requires ListsOk(c, h) && i < |h.blocks| && b < |h.lists| && h.blocks[i].status.Live?
    ensures ListsOk(c, h.(lists := h.lists[b := [i] + h.lists[b]],
                          blocks := h.blocks[i := h.blocks[i].(status := Listed(b))]))
  {
    var h' := h.(lists := h.lists[b := [i] + h.lists[b]],
                 blocks := h.blocks[i := h.blocks[i].(status := Listed(b))]);
    assert h'.lists[b][0] == i;
    forall j | 0 <= j < |h'.blocks| && h'.blocks[j].status.Listed?
      ensures h'.blocks[j].status.bucket < |h'.lists| && j in h'.lists[h'.blocks[j].status.bucket]
    {
      if j != i {
        var a := h.blocks[j].status.bucket;
        var k :| 0 <= k < |h.lists[a]| && h.lists[a][k] == j;
        if a == b { assert h'.lists[b][k + 1] == j; }
      }
    }
  }

  lemma LoseKeepsLists(c: Config, h: Heap, i: nat)
    requires ListsOk(c, h) && i < |h.blocks| && h.blocks[i].status.Live?
    ensures ListsOk(c, h.(blocks := h.blocks[i := h.blocks[i].(status := Lost)]))
  {
  }

  lemma WriteKeeps(c: Config, h: Heap, p: nat, offset: nat, bytes: seq<u8>)
    requires HeapOk(c, h)
    requires Owns(c, h, p) && offset + |bytes| <= |h.blocks[At(c, h, p)].data|
    ensures HeapOk(c, Write(c, h, p, offset, bytes))
  {
    var i := At(c, h, p);
    var h' := Write(c, h, p, offset, bytes);
    assert ListsOk(c, h') by {
      assert forall j :: 0 <= j < |h.blocks| ==> h'.blocks[j].status == h.blocks[j].status;
      hide Tiled, BlockOk;
    }
    hide ListsOk;
    assert BlockOk(c, h.blocks[i]);
    assert |h'.blocks[i].data| == |h.blocks[i].data|;
  }

  // ---------------------------------------------------------------- what Allocate returns

  /** Every pointer handed out before, except `p`, keeps its block, untouched. */
  ghost predicate KeepsOthers(c: Config, h: Heap, h': Heap, p: int) {
    forall q :: q != p && Owns(c, h, q) ==>
                  At(c, h', q) == At(c, h, q) < |h'.blocks| && h'.blocks[At(c, h, q)] == h.blocks[At(c, h, q)]
  }

  /** The region stays, and a block never moves, changes size or disappears. */
  ghost predicate Grows(h: Heap, h': Heap) {
    && h'.base == h.base && h'.limit == h.limit
    && Next(h) <= Next(h') && h'.reserve in {0, h.reserve}
    && |h.blocks| <= |h'.blocks|
    && (forall i :: 0 <= i < |h.blocks| ==>
          && h'.blocks[i].addr == h.blocks[i].addr
          && h'.blocks[i].size == h.blocks[i].size
          && |h'.blocks[i].data| == |h.blocks[i].data|)
  }

  /** Equal addresses give equal lookups. */
  lemma SameAt(c: Config, h: Heap, h': Heap, p: nat)
    requires Tiled(c, h') && c.align > 0 && Grows(h, h')
    requires At(c, h, p) < |h.blocks|
    ensures At(c, h', p) == At(c, h, p)
  {
    FindsItself(c, h', At(c, h, p));
  }

  lemma SameLookups(c: Config, h: Heap, h': Heap, p: int)
    requires Tiled(c, h') && c.align > 0 && Grows(h, h')
    requires forall i :: 0 <= i < |h.blocks| && h.blocks[i].status.Live? && h.blocks[i].addr != p - c.align ==>
                           h'.blocks[i] == h.blocks[i]
    ensures KeepsOthers(c, h, h', p)
  {
    forall q | q != p && Owns(c, h, q)
      ensures At(c, h', q) == At(c, h, q) < |h'.blocks| && h'.blocks[At(c, h, q)] == h.blocks[At(c, h, q)]
    {
      SameAt(c, h, h', q);
    }
  }

  lemma AllocateGrows(c: Config, h: Heap, n: nat)
    requires HeapOk(c, h) && n < c.Word()
    ensures var h' := Allocate(c, h, n).0;
            && Grows(h, h')
            && forall i :: 0 <= i < |h.blocks| && h.blocks[i].status.Live? ==> h'.blocks[i] == h.blocks[i]
  {
    NextAligned(c, h);
  }

  lemma AllocateResult(c: Config, h: Heap, n: nat)
    requires HeapOk(c, h) && n < c.Word()
    ensures var (h', q) := Allocate(c, h, n);
            && HeapOk(c, h')
            && Grows(h, h')
            && KeepsOthers(c, h, h', -1)
            && (q != 0 ==> Handed(c, h, h', q, n))
  {
    var (h', q) := Allocate(c, h, n);
    assert c.align > 0;
    AllocateKeeps(c, h, n);
    assert KeepsOthers(c, h, h', -1) by {
      AllocateGrows(c, h, n);
      SameLookups(c, h, h', -1);
    }
    AllocateGrows(c, h, n);
    if q != 0 {
      if Recycles(c, h, n) { RecycleResult(c, h, n); } else { BumpResult(c, h, n); }
    }
  }

  /** `q` is a new, aligned pointer to a block that holds `n` bytes - unless `n` is within one
      alignment unit of the top of the address space, where the size arithmetic wraps. */
  ghost predicate Handed(c: Config, h: Heap, h': Heap, q: nat, n: nat) {
    && c.Aligned(q)
    && !Owns(c, h, q)
    && At(c, h', q) < |h'.blocks|
    && var b := h'.blocks[At(c, h', q)];
       && b.status == Live(n)
       && (n <= |b.data| <==> n <= c.Word() - c.align)
  }

  lemma RecycleResult(c: Config, h: Heap, n: nat)
    requires HeapOk(c, h) && n < c.Word() && Recycles(c, h, n)
    ensures var (h', q) := Recycle(c, h, n); Handed(c, h, h', q, n)
  {
    var b := FirstFit(c.buckets, n);
    var i := h.lists[b][0];
    assert h.blocks[i].status == Listed(b);
    BucketBlock(c, h.blocks[i], b, n);
    FindsItself(c, h, i);
    var (h', q) := Recycle(c, h, n);
    assert At(c, h', q) == i by {
      RecycleKeeps(c, h, n);
      FindsItself(c, h', i);
    }
  }

  lemma BucketBlock(c: Config, b: Block, k: nat, n: nat)
    requires c.Ok() && BlockOk(c, b) && k < |c.buckets| && b.size == c.buckets[k] && n <= b.size
    ensures c.Aligned(b.addr + c.align) && n <= |b.data| && n <= c.Word() - c.align
  {
    assert b.size in c.buckets;
  }

  lemma BumpResult(c: Config, h: Heap, n: nat)
    requires HeapOk(c, h) && n < c.Word() && Next(h) != 0
    requires Fits(c, h, Extent(c, Rounded(c, n)))
    ensures var (h', q) := Bump(c, h, n); Handed(c, h, h', q, n)
  {
    BumpIndex(c, h, n);
    BumpShape(c, h, n);
    Unmapped(c, h);
    hide HeapOk, Extent, Rounded, Bump;
    BumpRoom(c, n);
  }

  lemma BumpIndex(c: Config, h: Heap, n: nat)
    requires HeapOk(c, h) && n < c.Word() && Next(h) != 0
    requires Fits(c, h, Extent(c, Rounded(c, n)))
    ensures var (h', q) := Bump(c, h, n); At(c, h', q) == |h.blocks| < |h'.blocks|
  {
    BumpKeeps(c, h, n);
    FindsItself(c, Bump(c, h, n).0, |h.blocks|);
  }

  lemma BumpShape(c: Config, h: Heap, n: nat)
    requires HeapOk(c, h) && n < c.Word() && Next(h) != 0
    requires Fits(c, h, Extent(c, Rounded(c, n)))
    ensures var (h', q) := Bump(c, h, n);
            && Next(h) >= 0 && q == Next(h) + c.align && c.Aligned(q)
            && |h.blocks| < |h'.blocks|
            && h'.blocks[|h.blocks|].status == Live(n)
            && 0 < Extent(c, Rounded(c, n)) == c.align + |h'.blocks[|h.blocks|].data|
  {
    hide ListsOk;
    NextAligned(c, h);
    FitsBounds(c, h, Extent(c, Rounded(c, n)));
    AlignedSum(c, Next(h), 0);
  }

  /** No block starts at the bump pointer. */
  lemma Unmapped(c: Config, h: Heap)
    requires Tiled(c, h) && c.align > 0 && Next(h) >= 0
    ensures At(c, h, Next(h) + c.align) == |h.blocks|
  {
    var i := Find(h.blocks, Next(h));
    if i < |h.blocks| { BelowNext(c, h, i); }
  }

  lemma BumpRoom(c: Config, n: nat)
    requires c.Ok() && n < c.Word() && 0 < Extent(c, Rounded(c, n))
    ensures n <= Extent(c, Rounded(c, n)) - c.align <==> n <= c.Word() - c.align
  {
    ExtentCovers(c, Rounded(c, n));
    RoundedSmall(c, n);
  }

  lemma RoundedSmall(c: Config, n: nat)
    requires c.Ok() && n < c.Word()
    ensures Rounded(c, n) <= c.Word() - c.align <==> n <= c.Word() - c.align
    ensures n > c.Word() - c.align ==> Rounded(c, n) == n
  {
  }

  lemma GrowsSelf(h: Heap)
    ensures Grows(h, h)
  {
  }

  lemma GrowsOn(h: Heap, h1: Heap, h2: Heap)
    requires Grows(h, h1) && Grows(h1, h2)
    ensures Grows(h, h2)
  {
  }

  lemma KeepsOthersOn(c: Config, h: Heap, h1: Heap, h2: Heap, p: int)
    requires KeepsOthers(c, h, h1, p) && KeepsOthers(c, h1, h2, p)
    ensures KeepsOthers(c, h, h2, p)
  {
    forall q | q != p && Owns(c, h, q)
      ensures At(c, h2, q) == At(c, h, q) < |h2.blocks| && h2.blocks[At(c, h, q)] == h.blocks[At(c, h, q)]
    {
      assert Owns(c, h1, q);
    }
  }
}
