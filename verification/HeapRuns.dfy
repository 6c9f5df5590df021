/** Whole runs of the heap: reallocation, round trips, and what every run keeps. */
module HeapRuns {
  import opened Basics
  import opened Ram
  import opened HeapSpec

  /** The block can be copied out: the header does not promise more than is there. */
  predicate Copyable(b: Block) {
    b.size <= |b.data|
  }

  ghost predicate Moves(c: Config, h: Heap, p: nat, n: nat)
    requires p == 0 || Owns(c, h, p)
  {
    p != 0 && n != 0 && h.blocks[At(c, h, p)].size < n
  }

  ghost predicate CanReAllocate(c: Config, h: Heap, p: nat, n: nat) {
    && n < c.Word()
    && (p == 0 || Owns(c, h, p))
    && (Moves(c, h, p, n) ==> Copyable(h.blocks[At(c, h, p)]) && n <= c.Word() - c.align)
  }

  ghost function ReAllocate(c: Config, h: Heap, p: nat, n: nat): (r: (Heap, nat))
    requires HeapOk(c, h) && CanReAllocate(c, h, p, n)
  {
    if p == 0 then Allocate(c, h, n)
    else if n == 0 then (Free(c, h, p), 0)
    else if !Moves(c, h, p, n) then (h, p)
    else
      var (h1, q) := Allocate(c, h, n);
      if q == 0 then (h1, 0) else (MoveTo(c, h, h1, p, q, n), q)
  }

  /** Copy the old block's `size` bytes to the new block, then free the old one. */
  ghost function MoveTo(c: Config, h: Heap, h1: Heap, p: nat, q: nat, n: nat): (r: Heap)
    requires HeapOk(c, h) && CanReAllocate(c, h, p, n) && Moves(c, h, p, n)
    requires q != 0 && (h1, q) == Allocate(c, h, n)
    ensures HeapOk(c, r)
  {
    MoveReady(c, h, h1, p, q, n);
    var old_ := h.blocks[At(c, h, p)];
    var h2 := Write(c, h1, q, 0, old_.data[..old_.size]);
    FreeKeeps(c, h2, p);
    Free(c, h2, p)
  }

  lemma MoveReady(c: Config, h: Heap, h1: Heap, p: nat, q: nat, n: nat)
    requires HeapOk(c, h) && CanReAllocate(c, h, p, n) && Moves(c, h, p, n)
    requires q != 0 && (h1, q) == Allocate(c, h, n)
    ensures var d := h.blocks[At(c, h, p)].data[..h.blocks[At(c, h, p)].size];
            && Owns(c, h1, q) && |d| <= |h1.blocks[At(c, h1, q)].data|
            && HeapOk(c, Write(c, h1, q, 0, d)) && Owns(c, Write(c, h1, q, 0, d), p)
  {
    hide Allocate, HeapOk, Tiled, BlockOk, ListsOk;
    AllocateKeeps(c, h, n);
    AllocateResult(c, h, n);
    var d := h.blocks[At(c, h, p)].data[..h.blocks[At(c, h, p)].size];
    WriteKeeps(c, h1, q, 0, d);
    OkConfig(c, Write(c, h1, q, 0, d));
    SameAt(c, h1, Write(c, h1, q, 0, d), p);
  }

  /** A reallocation keeps the old block's bytes, up to the size its header records; every
      other block is untouched, and a failed one leaves the old block in place. */
  lemma ReAllocateResult(c: Config, h: Heap, p: nat, n: nat)
    requires HeapOk(c, h) && CanReAllocate(c, h, p, n)
    ensures var (h', q) := ReAllocate(c, h, p, n);
            && HeapOk(c, h')
            && Grows(h, h')
            && KeepsOthers(c, h, h', p)
            && (q == 0 && n != 0 && p != 0 ==> Same(c, h, h', p))
            && (q != 0 ==> c.Aligned(q) || q == p)
            && (q != 0 ==> At(c, h', q) < |h'.blocks| && h'.blocks[At(c, h', q)].status.Live?)
            && (q != 0 && p != 0 ==> var b := h.blocks[At(c, h, p)];
                                     var b' := h'.blocks[At(c, h', q)];
                                     if q == p then b' == b && n <= b.size && (Copyable(b) ==> n <= |b'.data|)
                                     else && n <= |b'.data| && b.size <= |b.data| && b.size < n
                                          && b'.data[..b.size] == b.data[..b.size]
                                          && !Owns(c, h', p))
  {
    hide HeapOk, Allocate, Free, Grows, MoveTo;
    AllocateResult(c, h, n);
    GrowsSelf(h);
    if p != 0 {
      FreeKeepsOthers(c, h, p);
      if Moves(c, h, p, n) {
        var (h1, q) := Allocate(c, h, n);
        if q != 0 { MoveResult(c, h, h1, p, q, n); }
      }
    }
  }

  // ---------------------------------------------------------------- when a request is met

  /** The size a request gets: the least bucket that is large enough, or its own. */
  ghost predicate Granted(c: Config, n: nat, size: nat) {
    && n <= size
    && (size in c.buckets || (size == n && forall b :: b in c.buckets ==> b < n))
    && forall b :: b in c.buckets && n <= b ==> size <= b
  }

  /** A freed block of that size waits on its list. */
  ghost predicate Waits(c: Config, h: Heap, size: nat) {
    exists i :: 0 <= i < |h.blocks| && h.blocks[i].status.Listed? && h.blocks[i].size == size
  }

  /** Header and payload, filled up to the alignment, end below the reserve. */
  ghost predicate Roomy(c: Config, h: Heap, size: nat, e: nat) {
    c.Aligned(e) && c.align + size <= e < 2 * c.align + size && Next(h) + e <= h.limit - h.reserve
  }

  /** A request is met if and only if the region is set up and a freed block of its bucket waits, or there is
      room below the reserve for a fresh one; one within an alignment unit of the top of the address
      space needs no more than a header. A refusal gives up the reserve and changes nothing else. */
  lemma AllocateAnswers(c: Config, h: Heap, n: nat, size: nat)
    requires HeapOk(c, h) && n < c.Word() && Granted(c, n, size)
    ensures var (h', q) := Allocate(c, h, n);
            && (n <= c.Word() - c.align ==>
                  (q != 0 <==> Next(h) != 0 && (Waits(c, h, size) || exists e: nat :: Roomy(c, h, size, e))))
            && (n > c.Word() - c.align ==> (q != 0 <==> Next(h) != 0 && Next(h) + c.align <= h.limit - h.reserve))
            && (q == 0 ==> h' == if Next(h) == 0 then h else h.(reserve := 0))
  {
    hide HeapOk, Recycles, Waits, Granted, Recycle, Bump, Extent, Rounded, Fits;
    OkConfig(c, h);
    RoundedIs(c, n, size);
    WaitsIs(c, h, n, size);
    NextAligned(c, h);
    RoomyIs(c, h, size);
    RoundedSmall(c, n);
    if Recycles(c, h, n) {
      RecycleResult(c, h, n);
      if n > c.Word() - c.align { BucketSmall(c, h, n); }
    }
    if Next(h) != 0 { NoNull(c, h, n); }
  }

  /** Where a met request comes from: the waiting block freed last, or the start of the untouched region,
      of which it takes no more than it needs. */
  lemma AllocateTakes(c: Config, h: Heap, n: nat, size: nat)
    requires HeapOk(c, h) && n <= c.Word() - c.align && n < c.Word() && Granted(c, n, size) && Allocate(c, h, n).1 != 0
    ensures var (h', q) := Allocate(c, h, n);
            && h'.reserve == h.reserve && h'.limit == h.limit
            && if Waits(c, h, size) then
                 && Next(h') == Next(h) && |h'.blocks| == |h.blocks|
                 && exists i :: 0 <= i < |h.blocks| && h.blocks[i].status.Listed? && h.blocks[i].size == size
                                && q == h.blocks[i].addr + c.align
               else q == Next(h) + c.align && Roomy(c, h, size, Next(h') - Next(h)) && |h'.blocks| == |h.blocks| + 1
  {
    hide HeapOk, Recycles, Waits, Granted, Recycle, Bump, Extent, Rounded, Fits;
    OkConfig(c, h);
    RoundedIs(c, n, size);
    WaitsIs(c, h, n, size);
    if Recycles(c, h, n) {
      RecycleTakes(c, h, n, size);
    } else {
      BumpTakes(c, h, n, size);
    }
  }

  lemma RecycleTakes(c: Config, h: Heap, n: nat, size: nat)
    requires HeapOk(c, h) && Recycles(c, h, n) && Rounded(c, n) == size
    ensures var (h', q) := Recycle(c, h, n);
            && h'.reserve == h.reserve && h'.limit == h.limit && Next(h') == Next(h) && |h'.blocks| == |h.blocks|
            && exists i :: 0 <= i < |h.blocks| && h.blocks[i].status.Listed? && h.blocks[i].size == size
                           && q == h.blocks[i].addr + c.align
  {
    ListHead(c, h, FirstFit(c.buckets, n));
  }

  lemma BumpTakes(c: Config, h: Heap, n: nat, size: nat)
    requires HeapOk(c, h) && n <= c.Word() - c.align && n < c.Word() && Next(h) != 0 && Rounded(c, n) == size
    requires Fits(c, h, Extent(c, size))
    ensures var (h', q) := Bump(c, h, n);
            && h'.reserve == h.reserve && h'.limit == h.limit && q == Next(h) + c.align
            && Next(h') >= Next(h) && Roomy(c, h, size, Next(h') - Next(h)) && |h'.blocks| == |h.blocks| + 1
  {
    NextAligned(c, h);
    OkConfig(c, h);
    FitsBounds(c, h, Extent(c, size));
    hide Tiled, ListsOk, BlockOk;
    RoundedSmall(c, n);
    RoomyIs(c, h, size);
    var e: nat :| Roomy(c, h, size, e);
    ExtentIs(c, size, e);
  }

  /** When a reallocation is met: without an old block it is an allocation, size 0 frees the block, a request
      that the old block's recorded size covers is answered in place, and any other one exactly when an
      allocation of that size is; refused, it leaves what the refused allocation leaves. */
  lemma ReAllocateAnswers(c: Config, h: Heap, p: nat, n: nat)
    requires HeapOk(c, h) && CanReAllocate(c, h, p, n)
    ensures var (h', q) := ReAllocate(c, h, p, n);
            && (p == 0 ==> (h', q) == Allocate(c, h, n))
            && (p != 0 && n == 0 ==> q == 0 && !Owns(c, h', p) && Next(h') == Next(h) && KeepsOthers(c, h, h', p))
            && (p != 0 && 0 < n <= h.blocks[At(c, h, p)].size ==> q == p && h' == h)
            && (p != 0 && n > h.blocks[At(c, h, p)].size ==>
                  && q == Allocate(c, h, n).1
                  && (if q == 0 then h' == Allocate(c, h, n).0
                      else !Owns(c, h', p) && Next(h') == Next(Allocate(c, h, n).0)))
  {
    hide HeapOk, Allocate, Free, MoveTo;
    if p != 0 {
      FreeKeepsOthers(c, h, p);
      FreeStays(c, h, p);
      if Moves(c, h, p, n) && Allocate(c, h, n).1 != 0 {
        var (h1, q) := Allocate(c, h, n);
        MoveStays(c, h, h1, p, q, n);
      }
    }
  }

  lemma FreeStays(c: Config, h: Heap, p: nat)
    requires HeapOk(c, h) && Owns(c, h, p) && p != 0
    ensures Next(Free(c, h, p)) == Next(h)
  {
  }

  lemma MoveStays(c: Config, h: Heap, h1: Heap, p: nat, q: nat, n: nat)
    requires HeapOk(c, h) && CanReAllocate(c, h, p, n) && Moves(c, h, p, n)
    requires q != 0 && (h1, q) == Allocate(c, h, n)
    ensures var h' := MoveTo(c, h, h1, p, q, n); !Owns(c, h', p) && Next(h') == Next(h1)
  {
    MoveReady(c, h, h1, p, q, n);
    var d := h.blocks[At(c, h, p)].data[..h.blocks[At(c, h, p)].size];
    var h2 := Write(c, h1, q, 0, d);
    assert Next(h2) == Next(h1);
    hide HeapOk, Free, Allocate, Write;
    FreeKeepsOthers(c, h2, p);
    FreeStays(c, h2, p);
  }

  lemma NoNull(c: Config, h: Heap, n: nat)
    requires HeapOk(c, h) && n < c.Word() && Next(h) != 0
    ensures Recycles(c, h, n) ==> Recycle(c, h, n).1 != 0
    ensures Fits(c, h, Extent(c, Rounded(c, n))) ==> Bump(c, h, n).1 != 0
  {
    NextAligned(c, h);
    hide Tiled;
  }

  lemma BucketSmall(c: Config, h: Heap, n: nat)
    requires HeapOk(c, h) && Recycles(c, h, n)
    ensures n <= c.Word() - c.align
  {
  }

  lemma RoundedIs(c: Config, n: nat, size: nat)
    requires c.Ok() && Granted(c, n, size)
    ensures size == Rounded(c, n)
  {
    var b := FirstFit(c.buckets, n);
    if b < |c.buckets| { assert c.buckets[b] in c.buckets; }
  }

  lemma WaitsIs(c: Config, h: Heap, n: nat, size: nat)
    requires HeapOk(c, h) && Granted(c, n, size)
    ensures |h.lists| == |c.buckets| && (Recycles(c, h, n) <==> Waits(c, h, size))
  {
    hide Tiled;
    RoundedIs(c, n, size);
    var b := FirstFit(c.buckets, n);
    if Recycles(c, h, n) {
      var i := h.lists[b][0];
      ListHead(c, h, b);
      assert h.blocks[i].status.Listed? && h.blocks[i].size == size;
    }
    if Waits(c, h, size) {
      var i :| 0 <= i < |h.blocks| && h.blocks[i].status.Listed? && h.blocks[i].size == size;
      assert BlockOk(c, h.blocks[i]);
      assert c.buckets[h.blocks[i].status.bucket] == size;
      assert i in h.lists[h.blocks[i].status.bucket];
    }
  }

  lemma RoomyIs(c: Config, h: Heap, size: nat)
    requires c.Ok() && 0 <= Next(h) < c.Word() && c.Aligned(Next(h)) && size < c.Word() && h.limit < c.Word()
    requires h.reserve <= h.limit
    ensures size <= c.Word() - c.align ==> (Fits(c, h, Extent(c, size)) <==> exists e: nat :: Roomy(c, h, size, e))
    ensures size > c.Word() - c.align ==> (Fits(c, h, Extent(c, size)) <==> Next(h) + c.align <= h.limit - h.reserve)
  {
    if size > c.Word() - c.align {
      HugeExtent(c, size);
    } else {
      ExtentCovers(c, size);
      var e0 := Extent(c, size);
      if Fits(c, h, e0) { assert Roomy(c, h, size, e0); }
      if e: nat :| Roomy(c, h, size, e) { ExtentIs(c, size, e); }
    }
  }

  lemma ExtentIs(c: Config, size: nat, e: nat)
    requires c.Ok() && size < c.Word() && c.Aligned(e) && c.align + size <= e < 2 * c.align + size && e < c.Word()
    ensures Extent(c, size) == e
  {
  }

  lemma FreeKeepsOthers(c: Config, h: Heap, p: nat)
    requires HeapOk(c, h) && (p == 0 || Owns(c, h, p))
    ensures var h' := Free(c, h, p);
            HeapOk(c, h') && Grows(h, h') && KeepsOthers(c, h, h', p) && !Owns(c, h', p)
  {
    var h' := Free(c, h, p);
    FreeKeeps(c, h, p);
    FreeShape(c, h, p);
    assert Tiled(c, h') && c.align > 0;
    hide HeapOk, Free, Grows;
    SameLookups(c, h, h', p);
    if p != 0 { SameAt(c, h, h', p); }
  }

  lemma FreeShape(c: Config, h: Heap, p: nat)
    requires HeapOk(c, h) && (p == 0 || Owns(c, h, p))
    ensures var h' := Free(c, h, p);
            && Grows(h, h')
            && (p != 0 ==> !h'.blocks[At(c, h, p)].status.Live?)
            && forall i :: 0 <= i < |h.blocks| && h.blocks[i].addr != p - c.align ==> h'.blocks[i] == h.blocks[i]
  {
    hide ListsOk, Tiled, BlockOk;
    if p == 0 {
      assert forall i :: 0 <= i < |h.blocks| ==> h.blocks[i] == Free(c, h, p).blocks[i];
    } else {
      assert h.blocks[At(c, h, p)].addr == p - c.align;
    }
  }

  lemma WriteKeepsOthers(c: Config, h: Heap, p: nat, offset: nat, bytes: seq<u8>)
    requires HeapOk(c, h)
    requires Owns(c, h, p) && offset + |bytes| <= |h.blocks[At(c, h, p)].data|
    ensures var h' := Write(c, h, p, offset, bytes);
            && HeapOk(c, h') && Grows(h, h') && KeepsOthers(c, h, h', p)
            && At(c, h', p) == At(c, h, p) && Owns(c, h', p)
  {
    var h' := Write(c, h, p, offset, bytes);
    WriteKeeps(c, h, p, offset, bytes);
    SameAt(c, h, h', p);
    SameLookups(c, h, h', p);
  }

  lemma MoveResult(c: Config, h: Heap, h1: Heap, p: nat, q: nat, n: nat)
    requires HeapOk(c, h) && CanReAllocate(c, h, p, n) && Moves(c, h, p, n)
    requires q != 0 && (h1, q) == Allocate(c, h, n)
    ensures var h' := MoveTo(c, h, h1, p, q, n);
            var b := h.blocks[At(c, h, p)];
            && Grows(h, h') && KeepsOthers(c, h, h', p) && q != p && !Owns(c, h', p) && c.Aligned(q)
            && At(c, h', q) < |h'.blocks|
            && var b' := h'.blocks[At(c, h', q)];
               && b'.status == Live(n) && n <= |b'.data|
               && At(c, h1, q) < |h1.blocks|
               && |h1.blocks[At(c, h1, q)].data| == |b'.data|
               && b'.data == b.data[..b.size] + h1.blocks[At(c, h1, q)].data[b.size..]
  {
    hide HeapOk, Allocate, Free, Grows;
    AllocateResult(c, h, n);
    var b := h.blocks[At(c, h, p)];
    var b1 := h1.blocks[At(c, h1, q)];
    WriteKeepsOthers(c, h1, q, 0, b.data[..b.size]);
    var h2 := Write(c, h1, q, 0, b.data[..b.size]);
    var h3 := MoveTo(c, h, h1, p, q, n);
    assert h2.blocks[At(c, h2, q)].data == [] + b.data[..b.size] + b1.data[b.size..];
    FreeKeepsOthers(c, h2, p);
    assert Same(c, h2, h3, q);
    assert Grows(h, h3) && KeepsOthers(c, h, h3, p) by {
      NotYetOwned(c, h, h1, h2, q);
      KeepsOthersOn(c, h, h2, h3, p);
      GrowsOn(h, h1, h2);
      GrowsOn(h, h2, h3);
    }
  }

  /** A write to a pointer that was not owned before leaves all earlier pointers alone. */
  lemma NotYetOwned(c: Config, h: Heap, h1: Heap, h2: Heap, q: nat)
    requires KeepsOthers(c, h, h1, -1) && !Owns(c, h, q) && KeepsOthers(c, h1, h2, q)
    ensures KeepsOthers(c, h, h2, -1)
  {
    forall p | Owns(c, h, p)
      ensures At(c, h2, p) == At(c, h, p) < |h2.blocks| && h2.blocks[At(c, h, p)] == h.blocks[At(c, h, p)]
    {
      assert Owns(c, h1, p);
    }
  }

  // ---------------------------------------------------------------- round trips

  /** Freeing a recycled block restores the heap as it was. */
  lemma AllocateThenFree(c: Config, h: Heap, n: nat)
    requires HeapOk(c, h) && n < c.Word() && Next(h) != 0 && Recycles(c, h, n)
    ensures var (h1, p) := Allocate(c, h, n);
            HeapOk(c, h1) && Owns(c, h1, p) && Free(c, h1, p) == h
  {
    var b := FirstFit(c.buckets, n);
    ListHead(c, h, b);
    RecycleKeeps(c, h, n);
    SoleBucket(c, b);
    var (h1, p) := Recycle(c, h, n);
    var i := h.lists[b][0];
    FindsItself(c, h1, i);
    assert p != 0;
    hide HeapOk, Recycles, FirstFit, ExactFit;
    PushPopped(c, h, h1, p, b, n);
  }

  lemma PushPopped(c: Config, h: Heap, h1: Heap, p: nat, b: nat, n: nat)
    requires HeapOk(c, h1) && p != 0 && Owns(c, h1, p) && b < |h.lists| == |c.buckets| && h.lists[b] != []
    requires var i := h.lists[b][0];
             && i == At(c, h1, p) && i < |h.blocks| && h.blocks[i].status == Listed(b)
             && ExactFit(c.buckets, h.blocks[i].size) == b
             && h1 == h.(lists := h.lists[b := h.lists[b][1..]],
                         blocks := h.blocks[i := h.blocks[i].(status := Live(n))])
    ensures Free(c, h1, p) == h
  {
    hide HeapOk, Owns, At, ExactFit;
    var i := h.lists[b][0];
    assert [i] + h.lists[b][1..] == h.lists[b];
    var h2 := Free(c, h1, p);
    assert h2.lists == h.lists;
    assert h2.blocks == h.blocks;
  }

  /** The block freed last is the one the next request of its bucket gets. */
  lemma FreeThenAllocate(c: Config, h: Heap, p: nat, n: nat)
    requires HeapOk(c, h) && p != 0 && Owns(c, h, p) && n < c.Word()
    requires FirstFit(c.buckets, n) < |c.buckets|
    requires h.blocks[At(c, h, p)].size == c.buckets[FirstFit(c.buckets, n)]
    ensures HeapOk(c, Free(c, h, p))
    ensures Allocate(c, Free(c, h, p), n)
            == (h.(blocks := h.blocks[At(c, h, p) := h.blocks[At(c, h, p)].(status := Live(n))]), p)
  {
    hide HeapOk, Free;
    var i, b, h1 := At(c, h, p), FirstFit(c.buckets, n), Free(c, h, p);
    FreedInFront(c, h, p, b);
    assert ([i] + h.lists[b])[1..] == h.lists[b];
    assert Recycles(c, h1, n);
    assert h1.lists[b := h1.lists[b][1..]] == h.lists;
    var r := Allocate(c, h1, n);
    assert r == Recycle(c, h1, n);
    assert r.1 == p;
    assert r.0.blocks == h.blocks[i := h.blocks[i].(status := Live(n))];
  }

  /** A freed block of bucket size becomes the head of its list. */
  lemma FreedInFront(c: Config, h: Heap, p: nat, b: nat)
    requires HeapOk(c, h) && p != 0 && Owns(c, h, p)
    requires b < |c.buckets| && h.blocks[At(c, h, p)].size == c.buckets[b]
    ensures var h1, i := Free(c, h, p), At(c, h, p);
            && HeapOk(c, h1) && ListsOk(c, h1) && Next(h1) != 0 && b < |h.lists|
            && h1 == h.(lists := h.lists[b := [i] + h.lists[b]],
                        blocks := h.blocks[i := h.blocks[i].(status := Listed(b))])
            && h1.blocks[i].addr + c.align == p
  {
    var i := At(c, h, p);
    FreeKeeps(c, h, p);
    SoleBucket(c, b);
    assert BlockOk(c, h.blocks[i]);
    BelowNext(c, h, i);
    hide HeapOk, BlockOk, ExactFit;
  }

  lemma SoleBucket(c: Config, b: nat)
    requires c.Ok() && b < |c.buckets|
    ensures ExactFit(c.buckets, c.buckets[b]) == b
  {
  }

  // ---------------------------------------------------------------- runs

  datatype Op =
    | Alloc(n: nat)
    | ReAlloc(p: nat, n: nat)
    | Release(p: nat)
    | Put(p: nat, offset: nat, bytes: seq<u8>)  // the owner writes into its block

  ghost predicate CanStep(c: Config, h: Heap, op: Op) {
    match op
    case Alloc(n) => n < c.Word()
    case ReAlloc(p, n) => CanReAllocate(c, h, p, n)
    case Release(p) => p == 0 || Owns(c, h, p)
    case Put(p, offset, bytes) => Owns(c, h, p) && offset + |bytes| <= |h.blocks[At(c, h, p)].data|
  }

  ghost function Step(c: Config, h: Heap, op: Op): (r: Heap)
    requires HeapOk(c, h) && CanStep(c, h, op)
  {
    match op
    case Alloc(n) => Allocate(c, h, n).0
    case ReAlloc(p, n) => ReAllocate(c, h, p, n).0
    case Release(p) => Free(c, h, p)
    case Put(p, offset, bytes) => Write(c, h, p, offset, bytes)
  }

  predicate Touches(op: Op, p: nat) {
    !op.Alloc? && op.p == p
  }

  lemma StepKeeps(c: Config, h: Heap, op: Op)
    requires HeapOk(c, h) && CanStep(c, h, op)
    ensures var h' := Step(c, h, op);
            HeapOk(c, h') && Grows(h, h') && forall p :: Owns(c, h, p) && !Touches(op, p) ==> Same(c, h, h', p)
  {
    hide HeapOk, Grows, Allocate, ReAllocate, Free, Write;
    match op
    case Alloc(n) => AllocateResult(c, h, n);
    case ReAlloc(p, n) => ReAllocateResult(c, h, p, n);
    case Release(p) => FreeKeepsOthers(c, h, p);
    case Put(p, offset, bytes) => WriteKeepsOthers(c, h, p, offset, bytes);
  }

  /** The pointer still leads to the same block, byte for byte. */
  ghost predicate Same(c: Config, h: Heap, h': Heap, p: nat)
    requires Owns(c, h, p)
  {
    At(c, h', p) == At(c, h, p) < |h'.blocks| && h'.blocks[At(c, h, p)] == h.blocks[At(c, h, p)]
  }

  ghost predicate CanRun(c: Config, h: Heap, ops: seq<Op>)
    requires HeapOk(c, h)
    decreases |ops|
  {
    ops == [] ||
    (CanStep(c, h, ops[0]) && (StepKeeps(c, h, ops[0]); CanRun(c, Step(c, h, ops[0]), ops[1..])))
  }

  ghost function Run(c: Config, h: Heap, ops: seq<Op>): Heap
    requires HeapOk(c, h) && CanRun(c, h, ops)
    decreases |ops|
  {
    if ops == [] then h
    else
      StepKeeps(c, h, ops[0]);
      Run(c, Step(c, h, ops[0]), ops[1..])
  }

  /** A run is its operations one after another: one more is one from where the run has led. */
  lemma {:induction false} RunGoesOn(c: Config, h: Heap, ops: seq<Op>, op: Op)
    requires HeapOk(c, h) && CanRun(c, h, ops) && HeapOk(c, Run(c, h, ops))
    ensures CanRun(c, h, ops + [op]) <==> CanStep(c, Run(c, h, ops), op)
    ensures CanRun(c, h, ops + [op]) ==> Run(c, h, ops + [op]) == Step(c, Run(c, h, ops), op)
    decreases |ops|
  {
    hide HeapOk, Step, CanStep;
    if ops == [] {
      assert ops + [op] == [op] && [op][1..] == [];
    } else {
      assert (ops + [op])[0] == ops[0] && (ops + [op])[1..] == ops[1..] + [op];
      StepKeeps(c, h, ops[0]);
      RunGoesOn(c, Step(c, h, ops[0]), ops[1..], op);
    }
  }

  /** The invariant holds after every run; blocks never move, shrink or vanish. */
  lemma {:induction false} RunKeeps(c: Config, h: Heap, ops: seq<Op>)
    requires HeapOk(c, h) && CanRun(c, h, ops)
    ensures var h' := Run(c, h, ops); HeapOk(c, h') && Grows(h, h')
    decreases |ops|
  {
    if ops != [] {
      StepKeeps(c, h, ops[0]);
      RunKeeps(c, Step(c, h, ops[0]), ops[1..]);
    }
  }

  /** Whatever else happens, an owned block that no operation names keeps every byte. */
  lemma {:induction false} RunLeavesAlone(c: Config, h: Heap, ops: seq<Op>, p: nat)
    requires HeapOk(c, h) && CanRun(c, h, ops) && Owns(c, h, p)
    requires forall k :: 0 <= k < |ops| ==> !Touches(ops[k], p)
    ensures Same(c, h, Run(c, h, ops), p)
    decreases |ops|
  {
    if ops != [] {
      StepKeeps(c, h, ops[0]);
      assert Same(c, h, Step(c, h, ops[0]), p);
      RunLeavesAlone(c, Step(c, h, ops[0]), ops[1..], p);
    }
  }

  /** After every run two owned payloads are apart, with the second one's header between them,
      inside the region and below the reserve. */
  lemma RunSeparates(c: Config, h: Heap, ops: seq<Op>, p: nat, q: nat)
    requires HeapOk(c, h) && CanRun(c, h, ops)
    requires Owns(c, Run(c, h, ops), p) && Owns(c, Run(c, h, ops), q) && p < q
    ensures Apart(c, Run(c, h, ops), p, q)
    ensures Run(c, h, ops).base == h.base && Run(c, h, ops).limit == h.limit
  {
    hide HeapOk, Owns;
    RunKeeps(c, h, ops);
    OwnedApart(c, Run(c, h, ops), p, q);
  }

  ghost predicate Apart(c: Config, h: Heap, p: nat, q: nat)
    requires Owns(c, h, p) && Owns(c, h, q)
  {
    && c.Aligned(p) && c.Aligned(q)
    && h.base <= p - c.align
    && p + |h.blocks[At(c, h, p)].data| <= q - c.align
    && q + |h.blocks[At(c, h, q)].data| <= Next(h) <= h.limit - h.reserve
  }

  lemma OwnedApart(c: Config, h: Heap, p: nat, q: nat)
    requires HeapOk(c, h) && Owns(c, h, p) && Owns(c, h, q) && p < q
    ensures Apart(c, h, p, q)
  {
    PayloadAligned(c, h, At(c, h, p));
    PayloadAligned(c, h, At(c, h, q));
    BlocksApart(c, h, At(c, h, p), At(c, h, q));
  }

  lemma PayloadAligned(c: Config, h: Heap, i: nat)
    requires c.Ok() && i < |h.blocks| && BlockOk(c, h.blocks[i])
    ensures c.Aligned(h.blocks[i].addr + c.align)
  {
  }

  lemma BlocksApart(c: Config, h: Heap, i: nat, j: nat)
    requires Tiled(c, h) && c.align > 0 && i < |h.blocks| && j < |h.blocks| && h.blocks[i].addr < h.blocks[j].addr
    ensures h.base <= h.blocks[i].addr
    ensures End(c, h.blocks[i]) <= h.blocks[j].addr
    ensures End(c, h.blocks[j]) <= Next(h)
  {
    BaseBelow(c, h, i);
    BelowNext(c, h, j);
    if j < i { AfterAt(c, h, j, i); } else { AfterAt(c, h, i, j); }
  }

  // ---------------------------------------------------------------- requests are met

  /** The block holds what was asked for, and its header records the rounded request, cut to
      32 bits. */
  ghost predicate Fair(c: Config, b: Block) {
    && b.size <= |b.data|
    && (b.status.Live? ==> b.status.requested <= |b.data| && b.size == Rounded(c, b.status.requested) % U32)
  }

  ghost predicate AllFair(c: Config, h: Heap) {
    forall i :: 0 <= i < |h.blocks| ==> Fair(c, h.blocks[i])
  }

  predicate Modest(c: Config, op: Op) {
    (op.Alloc? || op.ReAlloc?) ==> op.n <= c.Word() - c.align
  }

  lemma AllocateFair(c: Config, h: Heap, n: nat)
    requires HeapOk(c, h) && AllFair(c, h) && n < c.Word() && n <= c.Word() - c.align
    ensures AllFair(c, Allocate(c, h, n).0)
  {
    if Next(h) != 0 {
      assert |h.lists| == |c.buckets| && c.Ok();
      if Recycles(c, h, n) {
        ListHead(c, h, FirstFit(c.buckets, n));
        hide HeapOk;
        assert Rounded(c, n) < U32;
      } else if Fits(c, h, Extent(c, Rounded(c, n))) {
        BumpFair(c, h, n);
      }
    }
  }

  lemma OkConfig(c: Config, h: Heap)
    requires HeapOk(c, h)
    ensures c.Ok() && Tiled(c, h) && h.limit < c.Word() && h.reserve <= h.limit
  {
  }

  lemma BumpFair(c: Config, h: Heap, n: nat)
    requires HeapOk(c, h) && AllFair(c, h) && n < c.Word() && n <= c.Word() - c.align && Next(h) != 0
    requires Fits(c, h, Extent(c, Rounded(c, n)))
    ensures AllFair(c, Bump(c, h, n).0)
  {
    hide HeapOk, Extent, Rounded, Bump, Fits, Config.Ok, Config.Aligned;
    BumpShape(c, h, n);
    OkConfig(c, h);
    RoundedSmall(c, n);
    ExtentCovers(c, Rounded(c, n));
    BumpAppends(c, h, n);
    assert Fair(c, Bump(c, h, n).0.blocks[|h.blocks|]);
  }

  lemma BumpAppends(c: Config, h: Heap, n: nat)
    requires HeapOk(c, h) && n < c.Word() && Next(h) != 0
    requires Fits(c, h, Extent(c, Rounded(c, n)))
    ensures var h' := Bump(c, h, n).0;
            && |h'.blocks| == |h.blocks| + 1
            && forall i :: 0 <= i < |h.blocks| ==> h'.blocks[i] == h.blocks[i]
    ensures Bump(c, h, n).0.blocks[|h.blocks|].size == Rounded(c, n) % U32
  {
    hide HeapOk, Extent, Rounded;
  }

  lemma FreeFair(c: Config, h: Heap, p: nat)
    requires HeapOk(c, h) && AllFair(c, h) && (p == 0 || Owns(c, h, p))
    ensures AllFair(c, Free(c, h, p))
  {
  }

  lemma WriteFair(c: Config, h: Heap, p: nat, offset: nat, bytes: seq<u8>)
    requires AllFair(c, h)
    requires Owns(c, h, p) && offset + |bytes| <= |h.blocks[At(c, h, p)].data|
    ensures AllFair(c, Write(c, h, p, offset, bytes))
  {
  }

  lemma StepFair(c: Config, h: Heap, op: Op)
    requires HeapOk(c, h) && CanStep(c, h, op) && AllFair(c, h) && Modest(c, op)
    ensures AllFair(c, Step(c, h, op))
  {
    hide HeapOk, Allocate, Free, Write, AllFair;
    match op
    case Alloc(n) => AllocateFair(c, h, n);
    case ReAlloc(p, n) =>
      AllocateFair(c, h, n);
      FreeFair(c, h, p);
      if Moves(c, h, p, n) {
        var (h1, q) := Allocate(c, h, n);
        if q != 0 { MoveFair(c, h, h1, p, q, n); }
      }
    case Release(p) => FreeFair(c, h, p);
    case Put(p, offset, bytes) => WriteFair(c, h, p, offset, bytes);
  }

  lemma MoveFair(c: Config, h: Heap, h1: Heap, p: nat, q: nat, n: nat)
    requires HeapOk(c, h) && CanReAllocate(c, h, p, n) && Moves(c, h, p, n)
    requires q != 0 && (h1, q) == Allocate(c, h, n) && AllFair(c, h1)
    ensures AllFair(c, MoveTo(c, h, h1, p, q, n))
  {
    hide HeapOk, Allocate, Free, AllFair;
    AllocateResult(c, h, n);
    var b := h.blocks[At(c, h, p)];
    WriteFair(c, h1, q, 0, b.data[..b.size]);
    WriteKeepsOthers(c, h1, q, 0, b.data[..b.size]);
    FreeFair(c, Write(c, h1, q, 0, b.data[..b.size]), p);
  }

  /** If no request comes within one alignment unit of the top of the address space, every block
      always holds what its owner asked for. */
  lemma {:induction false} RunFair(c: Config, h: Heap, ops: seq<Op>)
    requires HeapOk(c, h) && CanRun(c, h, ops) && AllFair(c, h)
    requires forall k :: 0 <= k < |ops| ==> Modest(c, ops[k])
    ensures AllFair(c, Run(c, h, ops))
    decreases |ops|
  {
    if ops != [] {
      StepKeeps(c, h, ops[0]);
      StepFair(c, h, ops[0]);
      RunFair(c, Step(c, h, ops[0]), ops[1..]);
    }
  }

  /** And a reallocation that succeeds after such a run answers with a block that holds the new request,
      moved or in place. */
  lemma RunReAllocates(c: Config, h: Heap, ops: seq<Op>, p: nat, n: nat)
    requires HeapOk(c, h) && CanRun(c, h, ops) && AllFair(c, h) && n <= c.Word() - c.align
    requires forall k :: 0 <= k < |ops| ==> Modest(c, ops[k])
    requires HeapOk(c, Run(c, h, ops)) && CanReAllocate(c, Run(c, h, ops), p, n) && n > 0
    ensures var (h', q) := ReAllocate(c, Run(c, h, ops), p, n);
            q != 0 ==> At(c, h', q) < |h'.blocks| && n <= |h'.blocks[At(c, h', q)].data|
  {
    hide HeapOk, Run, CanRun, Allocate, ReAllocate, Grows, KeepsOthers, Modest;
    RunFair(c, h, ops);
    ReAllocateHolds(c, Run(c, h, ops), p, n);
  }

  lemma ReAllocateHolds(c: Config, h: Heap, p: nat, n: nat)
    requires HeapOk(c, h) && AllFair(c, h) && n <= c.Word() - c.align && CanReAllocate(c, h, p, n) && n > 0
    ensures var (h', q) := ReAllocate(c, h, p, n);
            q != 0 ==> At(c, h', q) < |h'.blocks| && n <= |h'.blocks[At(c, h', q)].data|
  {
    hide HeapOk, Allocate, Grows, KeepsOthers, MoveTo, Free;
    ReAllocateResult(c, h, p, n);
    if p == 0 { AllocateResult(c, h, n); } else { assert Fair(c, h.blocks[At(c, h, p)]); }
  }

  /** The other half: a larger request wraps, and if any room is left it is answered with a
      block that has no payload at all. */
  lemma HugeRequest(c: Config, h: Heap, n: nat)
    requires HeapOk(c, h) && Next(h) != 0
    requires c.Word() - c.align < n < c.Word() && c.align <= |h.arena| - h.reserve
    ensures var (h', q) := Allocate(c, h, n);
            q != 0 && At(c, h', q) < |h'.blocks| && h'.blocks[At(c, h', q)].data == []
  {
    assert FirstFit(c.buckets, n) == |c.buckets|;
    assert Extent(c, n) == c.align by { HugeExtent(c, n); }
    NextAligned(c, h);
    assert Fits(c, h, c.align);
    BumpIndex(c, h, n);
    BumpShape(c, h, n);
  }

  /** So is every larger request that is not refused. */
  lemma HugeIsEmpty(c: Config, h: Heap, n: nat)
    requires HeapOk(c, h) && c.Word() - c.align < n < c.Word() && Allocate(c, h, n).1 != 0
    ensures var (h', q) := Allocate(c, h, n);
            At(c, h', q) < |h'.blocks| && h'.blocks[At(c, h', q)].data == []
  {
    assert FirstFit(c.buckets, n) == |c.buckets|;
    assert Extent(c, n) == c.align by { HugeExtent(c, n); }
    BumpIndex(c, h, n);
    BumpShape(c, h, n);
  }

  lemma HugeExtent(c: Config, n: nat)
    requires c.Ok() && c.Word() - c.align < n < c.Word()
    ensures Extent(c, n) == c.align
  {
  }

  /** What DoReAllocate copies when it moves a block, of whatever size and state: the copy fits the new
      block exactly when the request does not wrap (or nothing is copied), and it stays in the old block
      exactly when that is Copyable. */
  lemma CopyFits(c: Config, h: Heap, p: nat, n: nat)
    requires HeapOk(c, h) && n < c.Word() && Owns(c, h, p) && p != 0 && Moves(c, h, p, n)
    requires Allocate(c, h, n).1 != 0
    ensures var b := h.blocks[At(c, h, p)];
            var (h', q) := Allocate(c, h, n);
            && At(c, h', q) < |h'.blocks|
            && (b.size <= |h'.blocks[At(c, h', q)].data| <==> n <= c.Word() - c.align || b.size == 0)
            && At(c, h', p) < |h'.blocks| && h'.blocks[At(c, h', p)] == b
            && (CanReAllocate(c, h, p, n) <==> Copyable(b) && n <= c.Word() - c.align)
  {
    AllocateResult(c, h, n);
    if n > c.Word() - c.align { HugeIsEmpty(c, h, n); }
    hide HeapOk, Allocate, Grows;
  }

  /** Reallocation keeps every requested byte exactly when the old request fits the header's
      32-bit size field. */
  lemma ReAllocateKeepsRequest(c: Config, h: Heap, p: nat, n: nat)
    requires HeapOk(c, h) && CanReAllocate(c, h, p, n) && Moves(c, h, p, n)
    requires Fair(c, h.blocks[At(c, h, p)])
    ensures var b := h.blocks[At(c, h, p)];
            var (h', q) := ReAllocate(c, h, p, n);
            && (q != 0 ==> At(c, h', q) < |h'.blocks| && b.size < |h'.blocks[At(c, h', q)].data|
                           && h'.blocks[At(c, h', q)].data[..b.size] == b.data[..b.size])
            && (b.status.requested <= b.size <==> b.status.requested < U32)
  {
    assert c.Ok();
    hide HeapOk, Allocate, MoveTo, Grows, KeepsOthers, Rounded;
    RequestFits(c, h.blocks[At(c, h, p)].status.requested);
    var (h1, q) := Allocate(c, h, n);
    if q != 0 { MoveResult(c, h, h1, p, q, n); }
  }

  lemma RequestFits(c: Config, n: nat)
    requires c.Ok()
    ensures n <= Rounded(c, n) % U32 <==> n < U32
  {
  }

  // ---------------------------------------------------------------- conservation

  /** Bytes, headers included, of the blocks in a given state. */
  function Bytes(c: Config, blocks: seq<Block>, live: bool, listed: bool, lost: bool): nat {
    if blocks == [] then 0
    else
      var b := blocks[|blocks| - 1];
      var counts := match b.status case Live(_) => live case Listed(_) => listed case Lost => lost;
      Bytes(c, blocks[..|blocks| - 1], live, listed, lost) + (if counts then c.align + |b.data| else 0)
  }

  /** After every run the blocks account for all of [base, next): nothing is leaked but the large
      freed blocks. */
  lemma RunConserves(c: Config, h: Heap, ops: seq<Op>)
    requires HeapOk(c, h) && CanRun(c, h, ops)
    ensures var h' := Run(c, h, ops);
            Next(h') - h'.base == Bytes(c, h'.blocks, true, false, false)
                                + Bytes(c, h'.blocks, false, true, false)
                                + Bytes(c, h'.blocks, false, false, true)
  {
    RunKeeps(c, h, ops);
    HeapConserves(c, Run(c, h, ops));
  }

  lemma HeapConserves(c: Config, h: Heap)
    requires Tiled(c, h)
    ensures Next(h) - h.base == Bytes(c, h.blocks, true, false, false)
                              + Bytes(c, h.blocks, false, true, false)
                              + Bytes(c, h.blocks, false, false, true)
  {
    TilingSum(c, h, |h.blocks|);
    assert h.blocks[..|h.blocks|] == h.blocks;
  }

  lemma {:induction false} TilingSum(c: Config, h: Heap, k: nat)
    requires Tiled(c, h) && k <= |h.blocks|
    ensures Bytes(c, h.blocks[..k], true, false, false)
          + Bytes(c, h.blocks[..k], false, true, false)
          + Bytes(c, h.blocks[..k], false, false, true)
         == if k == 0 then 0 else End(c, h.blocks[k - 1]) - h.base
  {
    if k > 0 {
      TilingSum(c, h, k - 1);
      assert h.blocks[..k][..k - 1] == h.blocks[..k - 1];
    }
  }
}
