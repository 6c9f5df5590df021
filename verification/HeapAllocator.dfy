/**
 CHeapAllocator over raw bytes: headers, links and payloads all live in the same memory, so
 every header store has to be shown not to hit another block. `h` is the abstract heap the
 bytes stand for.
 */
module HeapAllocator {
  import opened Basics
  import opened Ram
  import opened HeapSpec
  import opened HeapRuns

  const HEAP_BLOCK_ALLOC_MAGIC: nat := 0x424C4D41
  const HEAP_BLOCK_FREE_MAGIC: nat := 0x424C4D46
  const HEAP_BLOCK_MAX_BUCKETS: nat := 20

  // offsets in THeapBlockHeader
  const MAGIC: nat := 0
  const SIZE: nat := 4
  const LINK: nat := 8

  /** A block as the bytes at its address show it. */
  datatype Image = Image(magic: nat, size: nat, link: nat, data: seq<u8>)

  function View(c: Config, ram: seq<u8>, addr: nat, len: nat): Image
    requires c.ptrBytes <= 8 && 16 <= c.align && addr + c.align + len <= |ram|
  {
    Image(Load(ram, addr + MAGIC, 4), Load(ram, addr + SIZE, 4), Load(ram, addr + LINK, c.ptrBytes),
          ram[addr + c.align..addr + c.align + len])
  }

  /** Where the k-th link of a free list leads: the k-th block, or 0 at the end. */
  ghost function Link(h: Heap, b: nat, k: nat): nat
    requires b < |h.lists|
  {
    if k < |h.lists[b]| && h.lists[b][k] < |h.blocks| then h.blocks[h.lists[b][k]].addr else 0
  }

  function MagicOf(st: Status): nat {
    if st.Live? then HEAP_BLOCK_ALLOC_MAGIC else HEAP_BLOCK_FREE_MAGIC
  }

  ghost predicate BlockStored(c: Config, h: Heap, ram: seq<u8>, i: nat)
    requires Within(c, h, ram) && i < |h.blocks|
  {
    && ViewOf(c, h, ram, i).size == h.blocks[i].size
    && ViewOf(c, h, ram, i).data == h.blocks[i].data
    && ViewOf(c, h, ram, i).magic == MagicOf(h.blocks[i].status)
  }

  ghost predicate BlocksStored(c: Config, h: Heap, ram: seq<u8>)
    requires Within(c, h, ram)
  {
    forall i :: 0 <= i < |h.blocks| ==> BlockStored(c, h, ram, i)
  }

  /** Every link word leads to the next block of its list, and the heads to the first. */
  ghost predicate LinksStored(c: Config, h: Heap, ram: seq<u8>, heads: seq<nat>)
    requires Within(c, h, ram)
  {
    && |heads| == |h.lists|
    && (forall b :: 0 <= b < |h.lists| ==> heads[b] == Link(h, b, 0))
    && (forall b, k :: 0 <= b < |h.lists| && 0 <= k < |h.lists[b]| ==> LinkStored(c, h, ram, b, k))
  }

  ghost predicate LinkStored(c: Config, h: Heap, ram: seq<u8>, b: nat, k: nat)
    requires Within(c, h, ram) && b < |h.lists| && k < |h.lists[b]|
  {
    h.lists[b][k] < |h.blocks| && ViewOf(c, h, ram, h.lists[b][k]).link == Link(h, b, k + 1)
  }

  ghost predicate Stored(c: Config, h: Heap, ram: seq<u8>, heads: seq<nat>) {
    && HeapOk(c, h)
    && Within(c, h, ram)
    && h.arena == ram[Next(h)..h.limit]
    && BlocksStored(c, h, ram)
    && LinksStored(c, h, ram, heads)
  }

  // ---------------------------------------------------------------- header stores

  predicate IsField(c: Config, off: nat, n: nat) {
    (off == MAGIC && n == 4) || (off == SIZE && n == 4) || (off == LINK && n == c.ptrBytes)
  }

  /** A header store leaves every other block's image alone. */
  lemma StoreViewElsewhere(c: Config, ram: seq<u8>, a: nat, off: nat, n: nat, v: nat, addr: nat, len: nat)
    requires c.Ok() && addr + c.align + len <= |ram| && a + c.align <= |ram| && IsField(c, off, n)
    requires addr + c.align + len <= a || a + c.align <= addr
    ensures View(c, Store(ram, a + off, n, v), addr, len) == View(c, ram, addr, len)
  {
    hide Store;
    StoreElsewhere(ram, a + off, n, v, addr + c.align, addr + c.align + len);
    StoreElsewhere(ram, a + off, n, v, addr + MAGIC, addr + MAGIC + 4);
    StoreElsewhere(ram, a + off, n, v, addr + SIZE, addr + SIZE + 4);
    StoreElsewhere(ram, a + off, n, v, addr + LINK, addr + LINK + c.ptrBytes);
  }

  lemma StoreMagic(c: Config, ram: seq<u8>, a: nat, v: nat, len: nat)
    requires c.Ok() && a + c.align + len <= |ram| && v < U32
    ensures View(c, Store(ram, a + MAGIC, 4, v), a, len) == View(c, ram, a, len).(magic := v)
  {
    assert Pow256(4) == U32;
    LoadStored(ram, a + MAGIC, 4, v);
    StoreElsewhere(ram, a + MAGIC, 4, v, a + SIZE, a + SIZE + 4);
    StoreElsewhere(ram, a + MAGIC, 4, v, a + LINK, a + LINK + c.ptrBytes);
    StoreElsewhere(ram, a + MAGIC, 4, v, a + c.align, a + c.align + len);
    hide Store;
  }

  lemma StoreSize(c: Config, ram: seq<u8>, a: nat, v: nat, len: nat)
    requires c.Ok() && a + c.align + len <= |ram| && v < U32
    ensures View(c, Store(ram, a + SIZE, 4, v), a, len) == View(c, ram, a, len).(size := v)
  {
    assert Pow256(4) == U32;
    LoadStored(ram, a + SIZE, 4, v);
    StoreElsewhere(ram, a + SIZE, 4, v, a + MAGIC, a + MAGIC + 4);
    StoreElsewhere(ram, a + SIZE, 4, v, a + LINK, a + LINK + c.ptrBytes);
    StoreElsewhere(ram, a + SIZE, 4, v, a + c.align, a + c.align + len);
    hide Store;
  }

  lemma StoreLink(c: Config, ram: seq<u8>, a: nat, v: nat, len: nat)
    requires c.Ok() && a + c.align + len <= |ram| && v < Pow256(c.ptrBytes)
    ensures View(c, Store(ram, a + LINK, c.ptrBytes, v), a, len) == View(c, ram, a, len).(link := v)
  {
    LoadStored(ram, a + LINK, c.ptrBytes, v);
    StoreElsewhere(ram, a + LINK, c.ptrBytes, v, a + MAGIC, a + MAGIC + 4);
    StoreElsewhere(ram, a + LINK, c.ptrBytes, v, a + SIZE, a + SIZE + 4);
    StoreElsewhere(ram, a + LINK, c.ptrBytes, v, a + c.align, a + c.align + len);
    hide Store;
  }

  /** Set the magic word and the link of the header at `a`. */
  function Mark(c: Config, ram: seq<u8>, a: nat, magic: nat, link: nat): (r: seq<u8>)
    requires c.ptrBytes <= 8 && a + 16 <= |ram|
    ensures |r| == |ram|
  {
    Store(Store(ram, a + MAGIC, 4, magic), a + LINK, c.ptrBytes, link)
  }

  lemma MarkView(c: Config, ram: seq<u8>, a: nat, magic: nat, link: nat, len: nat)
    requires c.Ok() && a + c.align + len <= |ram| && magic < U32 && link < Pow256(c.ptrBytes)
    ensures View(c, Mark(c, ram, a, magic, link), a, len)
         == View(c, ram, a, len).(magic := magic, link := link)
  {
    StoreMagic(c, ram, a, magic, len);
    StoreLink(c, Store(ram, a + MAGIC, 4, magic), a, link, len);
  }

  lemma MarkElsewhere(c: Config, ram: seq<u8>, a: nat, magic: nat, link: nat, addr: nat, len: nat)
    requires c.Ok() && addr + c.align + len <= |ram| && a + c.align <= |ram|
    requires addr + c.align + len <= a || a + c.align <= addr
    ensures View(c, Mark(c, ram, a, magic, link), addr, len) == View(c, ram, addr, len)
  {
    StoreViewElsewhere(c, ram, a, MAGIC, 4, magic, addr, len);
    StoreViewElsewhere(c, Store(ram, a + MAGIC, 4, magic), a, LINK, c.ptrBytes, link, addr, len);
  }

  ghost predicate Within(c: Config, h: Heap, ram: seq<u8>) {
    && c.Ok() && Tiled(c, h) && 0 <= Next(h) <= h.limit <= |ram|
    && (forall j :: 0 <= j < |h.blocks| ==> End(c, h.blocks[j]) <= Next(h))
  }

  lemma AllWithin(c: Config, h: Heap, ram: seq<u8>)
    requires c.Ok() && Tiled(c, h) && 0 <= Next(h) <= h.limit <= |ram|
    ensures Within(c, h, ram)
  {
    forall j | 0 <= j < |h.blocks| ensures End(c, h.blocks[j]) <= Next(h) { BelowNext(c, h, j); }
  }

  ghost function ViewOf(c: Config, h: Heap, ram: seq<u8>, j: nat): Image
    requires Within(c, h, ram) && j < |h.blocks|
  {
    View(c, ram, h.blocks[j].addr, |h.blocks[j].data|)
  }

  /** Marking block `i` shows only in block `i`. */
  lemma MarkBlock(c: Config, h: Heap, ram: seq<u8>, i: nat, magic: nat, link: nat)
    requires Within(c, h, ram)
    requires i < |h.blocks| && magic < U32 && link < Pow256(c.ptrBytes)
    ensures h.blocks[i].addr + 16 <= |ram|
    ensures var ram' := Mark(c, ram, h.blocks[i].addr, magic, link);
            && ram'[Next(h)..h.limit] == ram[Next(h)..h.limit]
            && (forall j :: 0 <= j < |h.blocks| ==>
                  ViewOf(c, h, ram', j)
                  == if j == i then ViewOf(c, h, ram, j).(magic := magic, link := link) else ViewOf(c, h, ram, j))
  {
    var a := h.blocks[i].addr;
    assert End(c, h.blocks[i]) <= Next(h);
    var ram1 := Store(ram, a + MAGIC, 4, magic);
    StoreElsewhere(ram, a + MAGIC, 4, magic, Next(h), h.limit);
    StoreElsewhere(ram1, a + LINK, c.ptrBytes, link, Next(h), h.limit);
    var ram' := Mark(c, ram, a, magic, link);
    forall j | 0 <= j < |h.blocks|
      ensures ViewOf(c, h, ram', j)
           == if j == i then ViewOf(c, h, ram, j).(magic := magic, link := link) else ViewOf(c, h, ram, j)
    {
      hide Mark, View;
      assert End(c, h.blocks[j]) <= Next(h);
      if j == i { MarkView(c, ram, a, magic, link, |h.blocks[i].data|); }
      else {
        if j < i { AfterAt(c, h, j, i); } else { AfterAt(c, h, i, j); }
        MarkElsewhere(c, ram, a, magic, link, h.blocks[j].addr, |h.blocks[j].data|);
      }
    }
  }

  // ---------------------------------------------------------------- the bytes follow the heap

  lemma WordIsPow(c: Config)
    requires c.Ok()
    ensures c.Word() == Pow256(c.ptrBytes)
  {
    assert Pow256(4) == 0x1_0000_0000;
    if c.ptrBytes == 8 {
      assert Pow256(8) == 256 * 256 * 256 * 256 * Pow256(4);
    }
  }

  /** The heap with block `i`'s status and the lists replaced. */
  function With(h: Heap, i: nat, st: Status, lists: seq<seq<nat>>): Heap
    requires i < |h.blocks|
  {
    h.(blocks := h.blocks[i := h.blocks[i].(status := st)], lists := lists)
  }

  lemma WithWithin(c: Config, h: Heap, ram: seq<u8>, ram': seq<u8>, i: nat, st: Status, lists: seq<seq<nat>>)
    requires Within(c, h, ram) && |ram'| == |ram| && i < |h.blocks|
    ensures Within(c, With(h, i, st, lists), ram')
    ensures forall j :: 0 <= j < |h.blocks| ==>
                          ViewOf(c, With(h, i, st, lists), ram', j) == View(c, ram', h.blocks[j].addr, |h.blocks[j].data|)
  {
  }

  /** Changing block `i`'s status and marking its header accordingly keeps the blocks stored. */
  lemma MarkedBlocks(c: Config, h: Heap, ram: seq<u8>, i: nat, st: Status, link: nat, lists: seq<seq<nat>>)
    requires Within(c, h, ram) && BlocksStored(c, h, ram) && i < |h.blocks| && link < Pow256(c.ptrBytes)
    ensures h.blocks[i].addr + 16 <= |ram|
    ensures var ram' := Mark(c, ram, h.blocks[i].addr, MagicOf(st), link);
            Within(c, With(h, i, st, lists), ram') && BlocksStored(c, With(h, i, st, lists), ram')
  {
    MarkBlock(c, h, ram, i, MagicOf(st), link);
    var ram' := Mark(c, ram, h.blocks[i].addr, MagicOf(st), link);
    WithWithin(c, h, ram, ram', i, st, lists);
    var h' := With(h, i, st, lists);
    hide Mark, View, Within, Tiled;
    forall j | 0 <= j < |h'.blocks| ensures BlockStored(c, h', ram', j) {
      assert BlockStored(c, h, ram, j);
    }
  }

  /** A list element other than the marked block keeps its link. */
  lemma KeptLink(c: Config, h: Heap, ram: seq<u8>, i: nat, st: Status, link: nat, lists: seq<seq<nat>>,
                 d: nat, k: nat, k0: nat)
    requires Within(c, h, ram) && i < |h.blocks| && link < Pow256(c.ptrBytes)
    requires d < |h.lists| && k0 < |h.lists[d]| && LinkStored(c, h, ram, d, k0)
    requires d < |lists| && k < |lists[d]| && lists[d][k] == h.lists[d][k0] != i
    requires lists[d][k..] == h.lists[d][k0..]
    ensures h.blocks[i].addr + 16 <= |ram|
    ensures var ram' := Mark(c, ram, h.blocks[i].addr, MagicOf(st), link);
            Within(c, With(h, i, st, lists), ram') && LinkStored(c, With(h, i, st, lists), ram', d, k)
  {
    hide Mark, View, Tiled, Link;
    MarkBlock(c, h, ram, i, MagicOf(st), link);
    var ram' := Mark(c, ram, h.blocks[i].addr, MagicOf(st), link);
    WithWithin(c, h, ram, ram', i, st, lists);
    LinkAlike(h, i, st, lists, d, k, k0);
  }

  /** Lists that agree from a place on lead to the same next block. */
  lemma LinkAlike(h: Heap, i: nat, st: Status, lists: seq<seq<nat>>, d: nat, k: nat, k0: nat)
    requires i < |h.blocks| && d < |h.lists| && k0 < |h.lists[d]| && d < |lists| && k < |lists[d]|
    requires lists[d][k..] == h.lists[d][k0..]
    ensures Link(With(h, i, st, lists), d, k + 1) == Link(h, d, k0 + 1)
  {
    assert |lists[d]| - k == |h.lists[d]| - k0;
    if k + 1 < |lists[d]| {
      assert lists[d][k..][1] == lists[d][k + 1];
      assert h.lists[d][k0..][1] == h.lists[d][k0 + 1];
    }
  }

  /** Popping a list: the block's link word becomes the new head. */
  lemma PopLinks(c: Config, h: Heap, ram: seq<u8>, heads: seq<nat>, b: nat, n: nat)
    requires Within(c, h, ram) && ListsOk(c, h) && LinksStored(c, h, ram, heads)
    requires b < |h.lists| && h.lists[b] != []
    ensures h.lists[b][0] < |h.blocks|
    ensures var a := h.blocks[h.lists[b][0]].addr;
            && a == heads[b] && a + 16 <= |ram|
            && var ram' := Mark(c, ram, a, HEAP_BLOCK_ALLOC_MAGIC, 0);
               var h' := With(h, h.lists[b][0], Live(n), h.lists[b := h.lists[b][1..]]);
               && Within(c, h', ram')
               && LinksStored(c, h', ram', heads[b := Load(ram, a + LINK, c.ptrBytes)])
  {
    var i := h.lists[b][0];
    assert LinkStored(c, h, ram, b, 0);
    assert heads[b] == Link(h, b, 0);
    var lists' := h.lists[b := h.lists[b][1..]];
    var h' := With(h, i, Live(n), lists');
    var ram' := Mark(c, ram, h.blocks[i].addr, HEAP_BLOCK_ALLOC_MAGIC, 0);
    WithWithin(c, h, ram, ram', i, Live(n), lists');
    var link := Load(ram, h.blocks[i].addr + LINK, c.ptrBytes);
    assert link == ViewOf(c, h, ram, i).link == Link(h, b, 1);
    PoppedHeads(c, h, heads, b, n, link);
    forall d, k | 0 <= d < |lists'| && 0 <= k < |lists'[d]| ensures LinkStored(c, h', ram', d, k) {
      PoppedLink(c, h, ram, heads, b, n, d, k);
    }
    hide ListsOk, Tiled, Within, View, Mark, Load, LinkStored;
  }

  lemma PoppedHeads(c: Config, h: Heap, heads: seq<nat>, b: nat, n: nat, link: nat)
    requires b < |h.lists| == |heads| && h.lists[b] != [] && h.lists[b][0] < |h.blocks|
    requires forall d :: 0 <= d < |h.lists| ==> heads[d] == Link(h, d, 0)
    requires link == Link(h, b, 1)
    ensures var h' := With(h, h.lists[b][0], Live(n), h.lists[b := h.lists[b][1..]]);
            forall d :: 0 <= d < |h'.lists| ==> heads[b := link][d] == Link(h', d, 0)
  {
  }

  lemma PoppedLink(c: Config, h: Heap, ram: seq<u8>, heads: seq<nat>, b: nat, n: nat, d: nat, k: nat)
    requires Within(c, h, ram) && ListsOk(c, h) && LinksStored(c, h, ram, heads)
    requires b < |h.lists| && h.lists[b] != [] && h.lists[b][0] < |h.blocks|
    requires var lists' := h.lists[b := h.lists[b][1..]]; d < |lists'| && k < |lists'[d]|
    ensures var a := h.blocks[h.lists[b][0]].addr;
            && a + 16 <= |ram|
            && var ram' := Mark(c, ram, a, HEAP_BLOCK_ALLOC_MAGIC, 0);
               var h' := With(h, h.lists[b][0], Live(n), h.lists[b := h.lists[b][1..]]);
               Within(c, h', ram') && LinkStored(c, h', ram', d, k)
  {
    var i := h.lists[b][0];
    var k0 := if d == b then k + 1 else k;
    var lists' := h.lists[b := h.lists[b][1..]];
    assert LinkStored(c, h, ram, d, k0);
    assert lists'[d][k] == h.lists[d][k0];
    assert h.blocks[h.lists[b][0]].status == Listed(b) && h.blocks[h.lists[d][k0]].status == Listed(d);
    assert d == b ==> h.lists[b][0] != h.lists[b][k + 1];
    assert 0 < Pow256(c.ptrBytes);
    hide ListsOk, LinksStored, Within;
    KeptLink(c, h, ram, i, Live(n), 0, lists', d, k, k0);
  }

  /** Pushing onto a list: the block links to the old head and becomes the new one. */
  lemma PushLinks(c: Config, h: Heap, ram: seq<u8>, heads: seq<nat>, b: nat, i: nat)
    requires Within(c, h, ram) && ListsOk(c, h) && LinksStored(c, h, ram, heads)
    requires b < |h.lists| && i < |h.blocks| && h.blocks[i].status.Live? && heads[b] < Pow256(c.ptrBytes)
    ensures h.blocks[i].addr + 16 <= |ram|
    ensures var a := h.blocks[i].addr;
            var ram' := Mark(c, ram, a, HEAP_BLOCK_FREE_MAGIC, heads[b]);
            var h' := With(h, i, Listed(b), h.lists[b := [i] + h.lists[b]]);
            Within(c, h', ram') && LinksStored(c, h', ram', heads[b := a])
  {
    hide Mark, View, Tiled, ListsOk;
    var lists' := h.lists[b := [i] + h.lists[b]];
    var h' := With(h, i, Listed(b), lists');
    MarkBlock(c, h, ram, i, HEAP_BLOCK_FREE_MAGIC, heads[b]);
    var ram' := Mark(c, ram, h.blocks[i].addr, HEAP_BLOCK_FREE_MAGIC, heads[b]);
    WithWithin(c, h, ram, ram', i, Listed(b), lists');
    assert ViewOf(c, h, ram', i).link == heads[b];
    forall d, k | 0 <= d < |lists'| && 0 <= k < |lists'[d]| ensures LinkStored(c, h', ram', d, k) {
      PushedLink(c, h, ram, heads, b, i, d, k);
    }
  }

  lemma PushedLink(c: Config, h: Heap, ram: seq<u8>, heads: seq<nat>, b: nat, i: nat, d: nat, k: nat)
    requires Within(c, h, ram) && ListsOk(c, h) && LinksStored(c, h, ram, heads)
    requires b < |h.lists| && i < |h.blocks| && h.blocks[i].status.Live? && heads[b] < Pow256(c.ptrBytes)
    requires var lists' := h.lists[b := [i] + h.lists[b]]; d < |lists'| && k < |lists'[d]|
    ensures h.blocks[i].addr + 16 <= |ram|
    ensures var ram' := Mark(c, ram, h.blocks[i].addr, HEAP_BLOCK_FREE_MAGIC, heads[b]);
            var h' := With(h, i, Listed(b), h.lists[b := [i] + h.lists[b]]);
            Within(c, h', ram') && LinkStored(c, h', ram', d, k)
  {
    var lists' := h.lists[b := [i] + h.lists[b]];
    if d == b && k == 0 {
      PushedHead(c, h, ram, b, i, heads[b]);
    } else {
      var k0 := if d == b then k - 1 else k;
      assert LinkStored(c, h, ram, d, k0);
      assert h.blocks[h.lists[d][k0]].status == Listed(d);
      assert lists'[d][k..] == h.lists[d][k0..];
      assert lists'[d][k] == h.lists[d][k0];
      hide ListsOk, LinksStored, Within, LinkStored, Mark, View;
      KeptLink(c, h, ram, i, Listed(b), heads[b], lists', d, k, k0);
    }
  }

  lemma PushedHead(c: Config, h: Heap, ram: seq<u8>, b: nat, i: nat, head: nat)
    requires Within(c, h, ram) && b < |h.lists| && i < |h.blocks| && head < Pow256(c.ptrBytes)
    requires head == Link(h, b, 0)
    ensures h.blocks[i].addr + 16 <= |ram|
    ensures var ram' := Mark(c, ram, h.blocks[i].addr, HEAP_BLOCK_FREE_MAGIC, head);
            var h' := With(h, i, Listed(b), h.lists[b := [i] + h.lists[b]]);
            Within(c, h', ram') && LinkStored(c, h', ram', b, 0)
  {
    var lists' := h.lists[b := [i] + h.lists[b]];
    MarkBlock(c, h, ram, i, HEAP_BLOCK_FREE_MAGIC, head);
    var ram' := Mark(c, ram, h.blocks[i].addr, HEAP_BLOCK_FREE_MAGIC, head);
    WithWithin(c, h, ram, ram', i, Listed(b), lists');
    var h' := With(h, i, Listed(b), lists');
    assert lists'[b][1..] == h.lists[b];
    hide Mark, View, Tiled;
    assert Link(h', b, 1) == Link(h, b, 0);
    assert ViewOf(c, h', ram', i) == ViewOf(c, h, ram', i);
  }

  // ---------------------------------------------------------------- one lemma per operation

  lemma RecycleStored(c: Config, h: Heap, ram: seq<u8>, heads: seq<nat>, n: nat)
    requires Stored(c, h, ram, heads) && n < c.Word() && Recycles(c, h, n)
    ensures var b := FirstFit(c.buckets, n);
            && b < |heads| && heads[b] != 0 && heads[b] + c.align <= |ram|
            && Recycle(c, h, n).1 == heads[b] + c.align
            && Load(ram, heads[b] + MAGIC, 4) == HEAP_BLOCK_FREE_MAGIC
            && Stored(c, Recycle(c, h, n).0, Mark(c, ram, heads[b], HEAP_BLOCK_ALLOC_MAGIC, 0),
                      heads[b := Load(ram, heads[b] + LINK, c.ptrBytes)])
  {
    var b := FirstFit(c.buckets, n);
    var i := h.lists[b][0];
    ListHead(c, h, b);
    OwnedHeader(c, h, ram, heads, i);
    RecycleKeeps(c, h, n);
    RecycleLinks(c, h, ram, heads, b, n);
    assert |heads| == |h.lists| && i < |h.blocks|;
    hide HeapOk, Within, BlocksStored, LinksStored, Mark, View, Load;
    assert Recycle(c, h, n).0 == With(h, i, Live(n), h.lists[b := h.lists[b][1..]]);
  }

  lemma RecycleLinks(c: Config, h: Heap, ram: seq<u8>, heads: seq<nat>, b: nat, n: nat)
    requires Stored(c, h, ram, heads) && b < |h.lists| && h.lists[b] != []
    ensures h.lists[b][0] < |h.blocks|
    ensures var i := h.lists[b][0];
            var a := h.blocks[i].addr;
            && a == heads[b] && a + 16 <= |ram|
            && var ram' := Mark(c, ram, a, HEAP_BLOCK_ALLOC_MAGIC, 0);
               var h' := With(h, i, Live(n), h.lists[b := h.lists[b][1..]]);
               && Within(c, h', ram')
               && LinksStored(c, h', ram', heads[b := Load(ram, a + LINK, c.ptrBytes)])
               && BlocksStored(c, h', ram')
               && ram'[Next(h)..h.limit] == ram[Next(h)..h.limit]
  {
    var i := h.lists[b][0];
    ListHead(c, h, b);
    assert 0 < Pow256(c.ptrBytes);
    assert ListsOk(c, h);
    hide HeapOk, ListsOk, Tiled, BlocksStored, LinksStored, Mark, View, Load;
    PopLinks(c, h, ram, heads, b, n);
    MarkedBlocks(c, h, ram, i, Live(n), 0, h.lists[b := h.lists[b][1..]]);
    MarkBlock(c, h, ram, i, HEAP_BLOCK_ALLOC_MAGIC, 0);
  }

  /** Pushing an owned block onto the list of its exact bucket. */
  lemma PushStored(c: Config, h: Heap, ram: seq<u8>, heads: seq<nat>, p: nat, b: nat)
    requires Stored(c, h, ram, heads) && Owns(c, h, p)
    requires b == ExactFit(c.buckets, h.blocks[At(c, h, p)].size) < |c.buckets|
    ensures c.ptrBytes <= 8 && 0 < p - c.align && p - c.align + 16 <= |ram| && b < |heads|
    ensures Stored(c, Free(c, h, p), Mark(c, ram, p - c.align, HEAP_BLOCK_FREE_MAGIC, heads[b]),
                   heads[b := p - c.align])
  {
    var i := At(c, h, p);
    assert h.blocks[i].addr == p - c.align;
    OwnedHeader(c, h, ram, heads, i);
    FreeKeeps(c, h, p);
    assert |heads| == |c.buckets|;
    HeadSmall(c, h, ram, heads, b);
    PushLinks(c, h, ram, heads, b, i);
    MarkedBlocks(c, h, ram, i, Listed(b), heads[b], h.lists[b := [i] + h.lists[b]]);
    MarkBlock(c, h, ram, i, HEAP_BLOCK_FREE_MAGIC, heads[b]);
    hide HeapOk, Within, BlocksStored, LinksStored, Mark, View;
    assert Free(c, h, p) == With(h, i, Listed(b), h.lists[b := [i] + h.lists[b]]);
  }

  /** Every block in memory: the magic number in its first four bytes, its size in the next four, little end
      first; a listed block holds the address of the next one of its list behind them. */
  lemma HeaderLayout(c: Config, h: Heap, ram: seq<u8>, heads: seq<nat>, i: nat)
    requires Stored(c, h, ram, heads) && i < |h.blocks|
    ensures var b := h.blocks[i];
            && b.addr + c.align + |b.data| <= |ram| && 16 <= c.align
            && ram[b.addr..b.addr + 4] == [if b.status.Live? then 0x41 else 0x46, 0x4D, 0x4C, 0x42]
            && b.size == Quad(ram[b.addr + 4], ram[b.addr + 5], ram[b.addr + 6], ram[b.addr + 7])
            && ram[b.addr + c.align..b.addr + c.align + |b.data|] == b.data
  {
    OwnedHeader(c, h, ram, heads, i);
    var a := h.blocks[i].addr;
    hide Stored, Decode;
    DecodedFour(ram[a..a + 4]);
    DecodedFour(ram[a + 4..a + 8]);
    FourBytes(ram[a..a + 4], if h.blocks[i].status.Live? then 0x41 else 0x46);
  }

  function Quad(b0: int, b1: int, b2: int, b3: int): int {
    b0 + 0x100 * b1 + 0x10000 * b2 + 0x1000000 * b3
  }

  lemma DecodedFour(s: seq<u8>)
    requires |s| == 4
    ensures Decode(s) == Quad(s[0], s[1], s[2], s[3])
  {
    assert s[1..][1..] == s[2..] && s[2..][1..] == s[3..] && s[3..][1..] == [];
    assert Decode(s) == s[0] + 256 * Decode(s[1..]);
    assert Decode(s[1..]) == s[1] + 256 * Decode(s[2..]);
    assert Decode(s[2..]) == s[2] + 256 * Decode(s[3..]);
    assert Decode(s[3..]) == s[3] + 256 * Decode([]);
  }

  lemma FourBytes(s: seq<u8>, x: int)
    requires |s| == 4 && 0 <= x < 0x100 && Quad(s[0], s[1], s[2], s[3]) == 0x424C4D00 + x
    ensures s == [x, 0x4D, 0x4C, 0x42]
  {
  }

  lemma ListLayout(c: Config, h: Heap, ram: seq<u8>, heads: seq<nat>, b: nat, k: nat)
    requires Stored(c, h, ram, heads) && b < |h.lists| && k < |h.lists[b]|
    ensures |heads| == |h.lists| && h.lists[b][k] < |h.blocks| && c.ptrBytes <= 8
    ensures var a := h.blocks[h.lists[b][k]].addr;
            && (k == 0 ==> heads[b] == a)
            && a + 16 <= |ram|
            && (k + 1 < |h.lists[b]| ==> h.lists[b][k + 1] < |h.blocks|)
            && Load(ram, a + 8, c.ptrBytes) == if k + 1 < |h.lists[b]| then h.blocks[h.lists[b][k + 1]].addr else 0
  {
    assert LinkStored(c, h, ram, b, k);
    assert ListsOk(c, h);
    OwnedHeader(c, h, ram, heads, h.lists[b][k]);
    hide Load;
  }

  lemma OwnedHeader(c: Config, h: Heap, ram: seq<u8>, heads: seq<nat>, i: nat)
    requires Stored(c, h, ram, heads) && i < |h.blocks|
    ensures 0 < h.blocks[i].addr && End(c, h.blocks[i]) <= |ram| && c.Ok()
    ensures Load(ram, h.blocks[i].addr + MAGIC, 4) == MagicOf(h.blocks[i].status)
    ensures Load(ram, h.blocks[i].addr + SIZE, 4) == h.blocks[i].size
    ensures ram[h.blocks[i].addr + c.align..End(c, h.blocks[i])] == h.blocks[i].data
  {
    assert BlockStored(c, h, ram, i) && BlockOk(c, h.blocks[i]);
    assert End(c, h.blocks[i]) <= Next(h);
    hide Load, ListsOk, Tiled;
  }

  /** Marking a block free without listing it. */
  lemma LoseStored(c: Config, h: Heap, ram: seq<u8>, heads: seq<nat>, p: nat)
    requires Stored(c, h, ram, heads) && Owns(c, h, p)
    requires ExactFit(c.buckets, h.blocks[At(c, h, p)].size) == |c.buckets|
    ensures var a := p - c.align;
            0 < a && a + c.align <= |ram|
            && Stored(c, Free(c, h, p), Store(ram, a + MAGIC, 4, HEAP_BLOCK_FREE_MAGIC), heads)
  {
    hide Tiled, BlockOk, Store, View, BlocksStored, LinksStored;
    var i := At(c, h, p);
    OwnedHeader(c, h, ram, heads, i);
    FreeKeeps(c, h, p);
    assert Free(c, h, p) == With(h, i, Lost, h.lists);
    assert h.blocks[i].addr == p - c.align;
    assert ListsOk(c, h);
    hide HeapOk, ListsOk, Within;
    LostLinks(c, h, ram, heads, i);
    LostBlocks(c, h, ram, i);
    MagicBlock(c, h, ram, i, HEAP_BLOCK_FREE_MAGIC);
  }

  lemma LostLinks(c: Config, h: Heap, ram: seq<u8>, heads: seq<nat>, i: nat)
    requires Within(c, h, ram) && ListsOk(c, h) && LinksStored(c, h, ram, heads)
    requires i < |h.blocks| && h.blocks[i].status.Live?
    ensures h.blocks[i].addr + 16 <= |ram|
    ensures var ram' := Store(ram, h.blocks[i].addr + MAGIC, 4, HEAP_BLOCK_FREE_MAGIC);
            Within(c, With(h, i, Lost, h.lists), ram') && LinksStored(c, With(h, i, Lost, h.lists), ram', heads)
  {
    hide Store, View, Tiled;
    MagicBlock(c, h, ram, i, HEAP_BLOCK_FREE_MAGIC);
    var ram' := Store(ram, h.blocks[i].addr + MAGIC, 4, HEAP_BLOCK_FREE_MAGIC);
    WithWithin(c, h, ram, ram', i, Lost, h.lists);
    var h' := With(h, i, Lost, h.lists);
    hide Within;
    assert forall d :: 0 <= d < |h.lists| ==> Link(h', d, 0) == Link(h, d, 0);
    forall d, k | 0 <= d < |h.lists| && 0 <= k < |h.lists[d]| ensures LinkStored(c, h', ram', d, k) {
      assert LinkStored(c, h, ram, d, k);
      assert h.blocks[h.lists[d][k]].status == Listed(d);
      hide ListsOk;
      assert Link(h', d, k + 1) == Link(h, d, k + 1);
    }
  }

  lemma LostBlocks(c: Config, h: Heap, ram: seq<u8>, i: nat)
    requires Within(c, h, ram) && BlocksStored(c, h, ram) && i < |h.blocks|
    ensures h.blocks[i].addr + 16 <= |ram|
    ensures var ram' := Store(ram, h.blocks[i].addr + MAGIC, 4, HEAP_BLOCK_FREE_MAGIC);
            Within(c, With(h, i, Lost, h.lists), ram') && BlocksStored(c, With(h, i, Lost, h.lists), ram')
  {
    MagicBlock(c, h, ram, i, HEAP_BLOCK_FREE_MAGIC);
    var ram' := Store(ram, h.blocks[i].addr + MAGIC, 4, HEAP_BLOCK_FREE_MAGIC);
    WithWithin(c, h, ram, ram', i, Lost, h.lists);
    var h' := With(h, i, Lost, h.lists);
    hide Store, View, Within;
    forall j | 0 <= j < |h.blocks| ensures BlockStored(c, h', ram', j) {
      assert BlockStored(c, h, ram, j);
    }
  }

  lemma MagicBlock(c: Config, h: Heap, ram: seq<u8>, i: nat, magic: nat)
    requires Within(c, h, ram) && i < |h.blocks| && magic < U32
    ensures h.blocks[i].addr + 16 <= |ram|
    ensures var ram' := Store(ram, h.blocks[i].addr + MAGIC, 4, magic);
            && ram'[Next(h)..h.limit] == ram[Next(h)..h.limit]
            && (forall j :: 0 <= j < |h.blocks| ==>
                  ViewOf(c, h, ram', j)
                  == if j == i then ViewOf(c, h, ram, j).(magic := magic) else ViewOf(c, h, ram, j))
  {
    var a := h.blocks[i].addr;
    assert End(c, h.blocks[i]) <= Next(h);
    StoreElsewhere(ram, a + MAGIC, 4, magic, Next(h), h.limit);
    var ram' := Store(ram, a + MAGIC, 4, magic);
    forall j | 0 <= j < |h.blocks|
      ensures ViewOf(c, h, ram', j)
           == if j == i then ViewOf(c, h, ram, j).(magic := magic) else ViewOf(c, h, ram, j)
    {
      hide Store, View;
      assert End(c, h.blocks[j]) <= Next(h);
      if j == i { StoreMagic(c, ram, a, magic, |h.blocks[i].data|); }
      else {
        if j < i { AfterAt(c, h, j, i); } else { AfterAt(c, h, i, j); }
        StoreViewElsewhere(c, ram, a, MAGIC, 4, magic, h.blocks[j].addr, |h.blocks[j].data|);
      }
    }
  }

  lemma HeadSmall(c: Config, h: Heap, ram: seq<u8>, heads: seq<nat>, b: nat)
    requires Stored(c, h, ram, heads) && b < |heads|
    ensures heads[b] < Pow256(c.ptrBytes)
  {
    WordIsPow(c);
    if Link(h, b, 0) != 0 { BelowNext(c, h, h.lists[b][0]); }
  }

  /** The header of a fresh block: size first, then magic and link. */
  function Fresh(c: Config, ram: seq<u8>, a: nat, size: nat): (r: seq<u8>)
    requires c.ptrBytes <= 8 && a + 16 <= |ram|
    ensures |r| == |ram|
  {
    Mark(c, Store(ram, a + SIZE, 4, size), a, HEAP_BLOCK_ALLOC_MAGIC, 0)
  }

  lemma FreshView(c: Config, ram: seq<u8>, a: nat, size: nat, len: nat)
    requires c.Ok() && a + c.align + len <= |ram| && size < U32
    ensures View(c, Fresh(c, ram, a, size), a, len)
         == Image(HEAP_BLOCK_ALLOC_MAGIC, size, 0, ram[a + c.align..a + c.align + len])
  {
    StoreSize(c, ram, a, size, len);
    assert 0 < Pow256(c.ptrBytes);
    MarkView(c, Store(ram, a + SIZE, 4, size), a, HEAP_BLOCK_ALLOC_MAGIC, 0, len);
    hide Mark, Store, Load;
  }

  lemma FreshElsewhere(c: Config, ram: seq<u8>, a: nat, size: nat, addr: nat, len: nat)
    requires c.Ok() && a + c.align <= |ram| && size < U32
    requires addr + c.align + len <= a
    ensures View(c, Fresh(c, ram, a, size), addr, len) == View(c, ram, addr, len)
  {
    StoreViewElsewhere(c, ram, a, SIZE, 4, size, addr, len);
    MarkElsewhere(c, Store(ram, a + SIZE, 4, size), a, HEAP_BLOCK_ALLOC_MAGIC, 0, addr, len);
  }

  lemma FreshAbove(c: Config, ram: seq<u8>, a: nat, size: nat, lo: nat, hi: nat)
    requires c.Ok() && a + c.align <= lo <= hi <= |ram|
    ensures Fresh(c, ram, a, size)[lo..hi] == ram[lo..hi]
  {
    StoreElsewhere(ram, a + SIZE, 4, size, lo, hi);
    var ram1 := Store(ram, a + SIZE, 4, size);
    StoreElsewhere(ram1, a + MAGIC, 4, HEAP_BLOCK_ALLOC_MAGIC, lo, hi);
    StoreElsewhere(Store(ram1, a + MAGIC, 4, HEAP_BLOCK_ALLOC_MAGIC), a + LINK, c.ptrBytes, 0, lo, hi);
  }

  lemma BumpStored(c: Config, h: Heap, ram: seq<u8>, heads: seq<nat>, n: nat)
    requires Stored(c, h, ram, heads) && n < c.Word() && Next(h) != 0
    requires Fits(c, h, Extent(c, Rounded(c, n)))
    ensures Next(h) + 16 <= |ram|
    ensures Stored(c, Bump(c, h, n).0, Fresh(c, ram, Next(h), Rounded(c, n) % U32), heads)
  {
    var size := Rounded(c, n) % U32;
    var a := Next(h);
    var extent := Extent(c, Rounded(c, n));
    FitsBounds(c, h, extent);
    BumpKeeps(c, h, n);
    var h' := Bump(c, h, n).0;
    var ram' := Fresh(c, ram, a, size);
    assert Tiled(c, h') && 0 <= Next(h') <= h'.limit && c.Ok();
    assert forall d, k :: 0 <= d < |h.lists| && 0 <= k < |h.lists[d]| ==> h.lists[d][k] < |h.blocks|;
    BumpFrames(c, h, ram, n, extent);
    hide HeapOk, Tiled, Fresh, Extent, Rounded, BlocksStored, LinksStored;
    AllWithin(c, h', ram');
    FreshBlocks(c, h, h', ram, a, size, extent);
    FreshLinks(c, h, h', ram, heads, a, size);
  }

  lemma BumpFrames(c: Config, h: Heap, ram: seq<u8>, n: nat, extent: nat)
    requires HeapOk(c, h) && n < c.Word() && Next(h) != 0 && extent == Extent(c, Rounded(c, n))
    requires Fits(c, h, extent) && c.align <= extent <= |h.arena|
    requires 0 <= Next(h) <= h.limit <= |ram| && h.arena == ram[Next(h)..h.limit]
    ensures var h' := Bump(c, h, n).0;
            var a := Next(h);
            && Next(h') == a + extent
            && h'.arena == Fresh(c, ram, a, Rounded(c, n) % U32)[a + extent..h.limit]
            && h'.blocks[|h.blocks|].data == ram[a + c.align..a + extent]
  {
    var a := Next(h);
    FreshAbove(c, ram, a, Rounded(c, n) % U32, a + extent, h.limit);
    hide HeapOk, Extent, Rounded, Fresh;
    SliceOfSlice(ram, a, h.limit, extent, h.limit - a);
    SliceOfSlice(ram, a, h.limit, c.align, extent);
    assert h.arena[extent..] == h.arena[extent..h.limit - a];
  }

  /** `h'` is `h` with one block appended at the bump pointer. */
  ghost predicate Extends(c: Config, h: Heap, h': Heap, ram: seq<u8>, a: nat, size: nat) {
    && Within(c, h, ram) && a == Next(h) && a + c.align <= |ram| && size < U32
    && Within(c, h', Fresh(c, ram, a, size))
    && h'.lists == h.lists && |h'.blocks| == |h.blocks| + 1 && h'.blocks[..|h.blocks|] == h.blocks
  }

  lemma FreshOld(c: Config, h: Heap, h': Heap, ram: seq<u8>, a: nat, size: nat, j: nat)
    requires Extends(c, h, h', ram, a, size) && j < |h.blocks|
    ensures h'.blocks[j] == h.blocks[j]
    ensures ViewOf(c, h', Fresh(c, ram, a, size), j) == ViewOf(c, h, ram, j)
  {
    assert h'.blocks[..|h.blocks|][j] == h.blocks[j];
    assert End(c, h.blocks[j]) <= a;
    FreshElsewhere(c, ram, a, size, h.blocks[j].addr, |h.blocks[j].data|);
    hide Fresh, View, Tiled;
  }

  lemma FreshBlocks(c: Config, h: Heap, h': Heap, ram: seq<u8>, a: nat, size: nat, extent: nat)
    requires Extends(c, h, h', ram, a, size) && BlocksStored(c, h, ram)
    requires c.align <= extent && a + extent <= |ram|
    requires h'.blocks[|h.blocks|].addr == a && h'.blocks[|h.blocks|].size == size
    requires h'.blocks[|h.blocks|].data == ram[a + c.align..a + extent] && h'.blocks[|h.blocks|].status.Live?
    ensures BlocksStored(c, h', Fresh(c, ram, a, size))
  {
    FreshView(c, ram, a, size, extent - c.align);
    var ram' := Fresh(c, ram, a, size);
    assert a + c.align + (extent - c.align) == a + extent;
    hide Fresh, View, Within, Tiled;
    forall j | 0 <= j < |h'.blocks| ensures BlockStored(c, h', ram', j) {
      if j < |h.blocks| {
        FreshOld(c, h, h', ram, a, size, j);
        assert BlockStored(c, h, ram, j);
      }
    }
  }

  lemma FreshLinks(c: Config, h: Heap, h': Heap, ram: seq<u8>, heads: seq<nat>, a: nat, size: nat)
    requires Extends(c, h, h', ram, a, size) && LinksStored(c, h, ram, heads)
    requires forall d, k :: 0 <= d < |h.lists| && 0 <= k < |h.lists[d]| ==> h.lists[d][k] < |h.blocks|
    ensures LinksStored(c, h', Fresh(c, ram, a, size), heads)
  {
    var ram' := Fresh(c, ram, a, size);
    forall d, k: nat | 0 <= d < |h.lists| ensures Link(h', d, k) == Link(h, d, k) {
      if k < |h.lists[d]| {
        assert h.lists[d][k] < |h.blocks|;
        FreshOld(c, h, h', ram, a, size, h.lists[d][k]);
      }
    }
    hide Fresh, View, Within, Tiled;
    forall d, k | 0 <= d < |h'.lists| && 0 <= k < |h'.lists[d]| ensures LinkStored(c, h', ram', d, k) {
      assert LinkStored(c, h, ram, d, k);
      FreshOld(c, h, h', ram, a, size, h.lists[d][k]);
      assert Link(h', d, k + 1) == Link(h, d, k + 1);
    }
  }

  /** A write inside one payload keeps everything else stored. */
  lemma WriteStored(c: Config, h: Heap, ram: seq<u8>, heads: seq<nat>, p: nat, offset: nat, bytes: seq<u8>)
    requires Stored(c, h, ram, heads)
    requires Owns(c, h, p) && offset + |bytes| <= |h.blocks[At(c, h, p)].data|
    ensures p + offset + |bytes| <= |ram|
    ensures Stored(c, Write(c, h, p, offset, bytes), Patch(ram, p + offset, bytes), heads)
  {
    var i := At(c, h, p);
    var h' := Write(c, h, p, offset, bytes);
    OwnedHeader(c, h, ram, heads, i);
    assert h.blocks[i].addr == p - c.align;
    assert End(c, h.blocks[i]) <= Next(h);
    WriteKeeps(c, h, p, offset, bytes);
    var ram' := Patch(ram, p + offset, bytes);
    PatchElsewhere(ram, p + offset, bytes, Next(h), h.limit);
    assert h'.lists == h.lists && |heads| == |h.lists|;
    assert forall d, k :: 0 <= d < |h.lists| && 0 <= k < |h.lists[d]| ==> h.lists[d][k] < |h.blocks|;
    assert Tiled(c, h') && 0 <= Next(h') <= h'.limit && c.Ok();
    hide HeapOk, BlocksStored, LinksStored, Patch;
    AllWithin(c, h', ram');
    WrittenBlocks(c, h, ram, p, offset, bytes);
    WrittenLinks(c, h, ram, heads, p, offset, bytes);
  }

  ghost predicate InBlock(c: Config, h: Heap, ram: seq<u8>, p: nat, offset: nat, bytes: seq<u8>) {
    && Within(c, h, ram) && Owns(c, h, p)
    && offset + |bytes| <= |h.blocks[At(c, h, p)].data|
    && p + offset + |bytes| <= |ram|
    && Within(c, Write(c, h, p, offset, bytes), Patch(ram, p + offset, bytes))
  }

  lemma WrittenView(c: Config, h: Heap, ram: seq<u8>, p: nat, offset: nat, bytes: seq<u8>, j: nat)
    requires InBlock(c, h, ram, p, offset, bytes) && j < |h.blocks|
    ensures var w := ViewOf(c, h, ram, j);
            var w' := ViewOf(c, Write(c, h, p, offset, bytes), Patch(ram, p + offset, bytes), j);
            && w'.magic == w.magic && w'.size == w.size && w'.link == w.link
            && w'.data == if j == At(c, h, p) then w.data[..offset] + bytes + w.data[offset + |bytes|..] else w.data
  {
    var i := At(c, h, p);
    var b := h.blocks[j];
    assert h.blocks[i].addr == p - c.align;
    assert End(c, b) <= Next(h) && End(c, h.blocks[i]) <= Next(h);
    if j < i { AfterAt(c, h, j, i); } else if i < j { AfterAt(c, h, i, j); }
    assert var b' := Write(c, h, p, offset, bytes).blocks[j]; b'.addr == b.addr && |b'.data| == |b.data|;
    hide Within, Tiled, Patch, Write, Load, Owns, At;
    WrittenBytes(c, ram, b.addr, |b.data|, p, |h.blocks[i].data|, offset, bytes);
  }

  lemma WrittenBytes(c: Config, ram: seq<u8>, addr: nat, len: nat, p: nat, plen: nat, offset: nat, bytes: seq<u8>)
    requires c.Ok() && addr + c.align + len <= |ram| && p + plen <= |ram| && offset + |bytes| <= plen
    requires (p == addr + c.align && plen == len) || addr + c.align + len <= p - c.align || p + plen <= addr
    ensures var w := View(c, ram, addr, len);
            var w' := View(c, Patch(ram, p + offset, bytes), addr, len);
            && w'.magic == w.magic && w'.size == w.size && w'.link == w.link
            && w'.data == if p == addr + c.align then w.data[..offset] + bytes + w.data[offset + |bytes|..] else w.data
  {
    hide Load, Patch;
    WrittenHeader(c, ram, addr, p + offset, bytes);
    if p == addr + c.align {
      PatchInside(ram, p, len, offset, bytes);
    } else {
      PatchElsewhere(ram, p + offset, bytes, addr + c.align, addr + c.align + len);
    }
  }

  lemma WrittenHeader(c: Config, ram: seq<u8>, addr: nat, to: nat, bytes: seq<u8>)
    requires c.Ok() && addr + c.align <= |ram| && to + |bytes| <= |ram|
    requires addr + c.align <= to || to + |bytes| <= addr
    ensures var ram' := Patch(ram, to, bytes);
            && Load(ram', addr + MAGIC, 4) == Load(ram, addr + MAGIC, 4)
            && Load(ram', addr + SIZE, 4) == Load(ram, addr + SIZE, 4)
            && Load(ram', addr + LINK, c.ptrBytes) == Load(ram, addr + LINK, c.ptrBytes)
  {
    hide Load, Patch;
    PatchElsewhere(ram, to, bytes, addr, addr + c.align);
    HeaderBytes(c, ram, Patch(ram, to, bytes), addr);
  }

  lemma PatchInside(ram: seq<u8>, p: nat, len: nat, offset: nat, bytes: seq<u8>)
    requires offset + |bytes| <= len && p + len <= |ram|
    ensures var d := ram[p..p + len];
            Patch(ram, p + offset, bytes)[p..p + len] == d[..offset] + bytes + d[offset + |bytes|..]
  {
    var d := ram[p..p + len];
    var x, y := Patch(ram, p + offset, bytes)[p..p + len], d[..offset] + bytes + d[offset + |bytes|..];
    forall k | 0 <= k < len ensures x[k] == y[k] {
      assert d[k] == ram[p + k];
    }
  }

  /** Equal header bytes give equal header words. */
  lemma HeaderBytes(c: Config, ram: seq<u8>, ram': seq<u8>, a: nat)
    requires c.Ok() && a + c.align <= |ram| == |ram'|
    requires ram[a..a + c.align] == ram'[a..a + c.align]
    ensures Load(ram', a + MAGIC, 4) == Load(ram, a + MAGIC, 4)
    ensures Load(ram', a + SIZE, 4) == Load(ram, a + SIZE, 4)
    ensures Load(ram', a + LINK, c.ptrBytes) == Load(ram, a + LINK, c.ptrBytes)
  {
    SubRange(ram, ram', a, a + c.align, a + MAGIC, a + MAGIC + 4);
    SubRange(ram, ram', a, a + c.align, a + SIZE, a + SIZE + 4);
    SubRange(ram, ram', a, a + c.align, a + LINK, a + LINK + c.ptrBytes);
  }

  lemma SubRange(ram: seq<u8>, ram': seq<u8>, lo: nat, hi: nat, x: nat, y: nat)
    requires lo <= x <= y <= hi <= |ram| == |ram'| && ram[lo..hi] == ram'[lo..hi]
    ensures ram[x..y] == ram'[x..y]
  {
    SliceOfSlice(ram, lo, hi, x - lo, y - lo);
    SliceOfSlice(ram', lo, hi, x - lo, y - lo);
  }

  lemma WrittenBlocks(c: Config, h: Heap, ram: seq<u8>, p: nat, offset: nat, bytes: seq<u8>)
    requires InBlock(c, h, ram, p, offset, bytes) && BlocksStored(c, h, ram)
    ensures BlocksStored(c, Write(c, h, p, offset, bytes), Patch(ram, p + offset, bytes))
  {
    var h' := Write(c, h, p, offset, bytes);
    var ram' := Patch(ram, p + offset, bytes);
    forall j | 0 <= j < |h'.blocks| ensures BlockStored(c, h', ram', j) {
      assert BlockStored(c, h, ram, j);
      WrittenView(c, h, ram, p, offset, bytes, j);
      hide Within, Patch, View;
    }
  }

  lemma WrittenLinks(c: Config, h: Heap, ram: seq<u8>, heads: seq<nat>, p: nat, offset: nat, bytes: seq<u8>)
    requires InBlock(c, h, ram, p, offset, bytes) && LinksStored(c, h, ram, heads)
    ensures LinksStored(c, Write(c, h, p, offset, bytes), Patch(ram, p + offset, bytes), heads)
  {
    var h' := Write(c, h, p, offset, bytes);
    var ram' := Patch(ram, p + offset, bytes);
    assert forall d, k: nat :: 0 <= d < |h.lists| ==> Link(h', d, k) == Link(h, d, k);
    forall d, k | 0 <= d < |h.lists| && 0 <= k < |h.lists[d]| ensures LinkStored(c, h', ram', d, k) {
      assert LinkStored(c, h, ram, d, k);
      WrittenView(c, h, ram, p, offset, bytes, h.lists[d][k]);
      hide Within, Patch, View;
    }
  }

  // ---------------------------------------------------------------- the allocator

  class CHeapAllocator {
    const c: Config
    const m_BucketSize: seq<nat>  // zero-terminated
    var ram: seq<u8>
    var m_pNext: nat
    var m_pLimit: nat
    var m_nReserve: nat
    var m_FreeList: seq<nat>
    ghost var h: Heap

    ghost predicate Valid()
      reads this
    {
      && m_BucketSize == c.buckets + [0]
      && Stored(c, h, ram, m_FreeList)
      && m_pNext == Next(h) && m_pLimit == h.limit && m_nReserve == h.reserve
    }

    /** A heap that is not set up: every request is refused. */
    constructor (c: Config, sizes: seq<nat>, ram: seq<u8>)
      requires c.Ok()
      requires c.buckets == if |sizes| > 20 then sizes[..20] else sizes
      ensures Valid() && h == Heap(0, 0, 0, [], seq(|c.buckets|, _ => []), [])
      ensures this.c == c && this.ram == ram
    {
      this.c := c;
      this.ram := ram;
      m_pNext, m_pLimit, m_nReserve := 0, 0, 0;
      var nBuckets := if |sizes| > HEAP_BLOCK_MAX_BUCKETS then HEAP_BLOCK_MAX_BUCKETS else |sizes|;
      m_BucketSize := sizes[..nBuckets] + [0];
      m_FreeList := seq(nBuckets, _ => 0);
      h := Heap(0, 0, 0, [], seq(|c.buckets|, _ => []), []);
      EmptyStored(c, Heap(0, 0, 0, [], seq(|c.buckets|, _ => []), []), ram, seq(nBuckets, _ => 0));
    }

    method Setup(nBase: nat, nSize: nat, nReserve: nat)
      requires Valid() && h.blocks == []
      requires 0 < nBase && c.Aligned(nBase) && nBase + nSize < c.Word() && nBase + nSize <= |ram| && nReserve <= nBase + nSize
      modifies this
      ensures Valid() && ram == old(ram)
      ensures h == Heap(nBase, nBase + nSize, nReserve, [], old(h).lists, ram[nBase..nBase + nSize])
    {
      m_pNext := nBase;
      m_pLimit := nBase + nSize;
      m_nReserve := nReserve;
      ListsEmpty(c, h, ram, m_FreeList);
      h := Heap(nBase, nBase + nSize, nReserve, [], h.lists, ram[nBase..nBase + nSize]);
      EmptyStored(c, h, ram, m_FreeList);
    }

    method GetFreeSpace() returns (n: nat)
      requires Valid()
      ensures n == |h.arena|
    {
      n := m_pLimit - m_pNext;
    }

    /** Everything is stored but the magic word and the link of the header at `hdr`. */
    ghost predicate Pending(hdr: nat)
      reads this
    {
      && c.ptrBytes <= 8 && hdr + 16 <= |ram|
      && m_BucketSize == c.buckets + [0]
      && Stored(c, h, Mark(c, ram, hdr, HEAP_BLOCK_ALLOC_MAGIC, 0), m_FreeList)
      && m_pNext == Next(h) && m_pLimit == h.limit && m_nReserve == h.reserve
    }

    /** The first bucket that is large enough, and the request rounded to it. */
    method FindBucket(nRequest: nat) returns (b: nat, nSize: nat)
      requires m_BucketSize == c.buckets + [0] && forall k :: 0 <= k < |c.buckets| ==> 0 < c.buckets[k]
      ensures b == FirstFit(c.buckets, nRequest) && nSize == Rounded(c, nRequest)
    {
      b, nSize := 0, nRequest;
      while m_BucketSize[b] > 0
        invariant b <= |c.buckets| && nSize == nRequest
        invariant forall k :: 0 <= k < b ==> c.buckets[k] < nRequest
        decreases |c.buckets| - b
      {
        if nSize <= m_BucketSize[b] {
          nSize := m_BucketSize[b];
          break;
        }
        b := b + 1;
      }
      FirstFitIs(c, nRequest, b);
    }

    /** The bucket of exactly that size, if there is one. */
    method FindExactBucket(nSize: nat) returns (b: nat)
      requires m_BucketSize == c.buckets + [0] && forall k :: 0 <= k < |c.buckets| ==> 0 < c.buckets[k]
      ensures b == ExactFit(c.buckets, nSize)
      ensures m_BucketSize[b] > 0 <==> b < |c.buckets|
    {
      b := 0;
      while m_BucketSize[b] > 0
        invariant b <= |c.buckets|
        invariant forall k :: 0 <= k < b ==> c.buckets[k] != nSize
        decreases |c.buckets| - b
      {
        if nSize == m_BucketSize[b] { break; }
        b := b + 1;
      }
      ExactFitIs(c, nSize, b);
    }

    method DoAllocate(nRequest: nat) returns (pResult: nat)
      requires Valid() && nRequest < c.Word()
      modifies this
      ensures Valid()
      ensures (h, pResult) == Allocate(c, old(h), nRequest) && h == Step(c, old(h), Alloc(nRequest))
    {
      hide HeapOk, Allocate, Stored, Recycle, FirstFit, Rounded, Config.Word, Mark;
      Branches(c, h, ram, m_FreeList, nRequest);
      if m_pNext == 0 { return 0; }
      var b, nSize := FindBucket(nRequest);
      var pBlockHeader: nat;
      if m_BucketSize[b] > 0 && m_FreeList[b] != 0 {
        pBlockHeader := TakeListed(b, nRequest);
      } else {
        pBlockHeader := TakeFresh(nSize, nRequest);
        if pBlockHeader == 0 { return 0; }
      }
      FinishHeader(pBlockHeader);
      pResult := pBlockHeader + c.align;
    }

    /** The rest of the header of a block being handed out. */
    method FinishHeader(pBlockHeader: nat)
      requires Pending(pBlockHeader)
      modifies this
      ensures Valid() && h == old(h)
    {
      hide Stored, Store, HeapOk;
      ram := Store(ram, pBlockHeader + MAGIC, 4, HEAP_BLOCK_ALLOC_MAGIC);
      ram := Store(ram, pBlockHeader + LINK, c.ptrBytes, 0);
    }

    /** Unlink the first block of free list `b`. */
    method TakeListed(b: nat, ghost nRequest: nat) returns (pBlockHeader: nat)
      requires Valid() && nRequest < c.Word() && Recycles(c, h, nRequest) && b == FirstFit(c.buckets, nRequest)
      modifies this
      ensures Pending(pBlockHeader)
      ensures (h, pBlockHeader + c.align) == Recycle(c, old(h), nRequest)
    {
      hide HeapOk, ListsOk, Stored, Store, Load, Mark, Recycle, Recycles, FirstFit, Config.Word, Next;
      ListedReady(c, h, ram, m_FreeList, nRequest);
      pBlockHeader := m_FreeList[b];
      assert Load(ram, pBlockHeader + MAGIC, 4) == HEAP_BLOCK_FREE_MAGIC;
      m_FreeList := m_FreeList[b := Load(ram, pBlockHeader + LINK, c.ptrBytes)];
      h := Recycle(c, h, nRequest).0;
    }

    /** Advance the bump pointer over a fresh block; 0 if there is no room. */
    method TakeFresh(nSize: nat, ghost nRequest: nat) returns (pBlockHeader: nat)
      requires Valid() && nRequest < c.Word() && nSize == Rounded(c, nRequest)
      requires m_pNext != 0 && !Recycles(c, h, nRequest)
      modifies this
      ensures pBlockHeader == 0 ==> Valid() && (h, 0) == Allocate(c, old(h), nRequest)
      ensures pBlockHeader != 0 ==> Pending(pBlockHeader)
      ensures pBlockHeader != 0 ==> (h, pBlockHeader + c.align) == Allocate(c, old(h), nRequest)
    {
      FreshSetup(c, h, ram, m_FreeList, nRequest);
      pBlockHeader := m_pNext;
      var pNextBlock := c.Wrap(m_pNext + Extent(c, nSize));
      if pNextBlock <= m_pNext || pNextBlock > m_pLimit - m_nReserve {
        Refuse(nRequest);
        return 0;
      }
      FreshTaken(c, h, ram, m_FreeList, nRequest);
      hide Allocate, HeapOk, Stored, Recycles, Rounded, Extent, Config.Ok, Config.Wrap, Store;
      Advance(pBlockHeader, pNextBlock, nSize, nRequest);
    }

    /** Out of memory: the reserve is given up. */
    method Refuse(ghost nRequest: nat)
      requires Valid() && nRequest < c.Word() && m_pNext != 0 && !Recycles(c, h, nRequest)
      requires c.Ok() && Rounded(c, nRequest) < c.Word() && 0 <= Next(h) < c.Word()
      requires Refuses(c, h, Rounded(c, nRequest))
      modifies this`m_nReserve, this`h
      ensures Valid() && (h, 0) == Allocate(c, old(h), nRequest)
    {
      FreshRefused(c, h, ram, m_FreeList, nRequest);
      hide Allocate, HeapOk, Stored, Recycles, Rounded, Refuses, Config.Ok;
      h := h.(reserve := 0);
      if m_nReserve == 0 { return; }
      m_nReserve := 0;
    }

    method Advance(pBlockHeader: nat, pNextBlock: nat, nSize: nat, ghost nRequest: nat)
      requires HeapOk(c, h) && nRequest < c.Word() && c.ptrBytes <= 8 && pBlockHeader + 16 <= |ram|
      requires m_BucketSize == c.buckets + [0]
      requires Stored(c, Allocate(c, h, nRequest).0, Fresh(c, ram, pBlockHeader, nSize % U32), m_FreeList)
      requires var h' := Allocate(c, h, nRequest).0;
               pNextBlock == Next(h') && m_pLimit == h'.limit && m_nReserve == h'.reserve
      modifies this
      ensures Pending(pBlockHeader) && h == Allocate(c, old(h), nRequest).0
    {
      hide Allocate, HeapOk, Stored, Store;
      m_pNext := pNextBlock;
      ram := Store(ram, pBlockHeader + SIZE, 4, nSize % U32);
      h := Allocate(c, old(h), nRequest).0;
    }

    method DoFree(pBlock: nat)
      requires Valid() && (pBlock == 0 || Owns(c, h, pBlock))
      modifies this
      ensures Valid()
      ensures h == Free(c, old(h), pBlock) == Step(c, old(h), Release(pBlock))
    {
      if pBlock != 0 { FreeBlock(pBlock); }
    }

    method FreeBlock(pBlock: nat)
      requires Valid() && Owns(c, h, pBlock)
      modifies this
      ensures Valid()
      ensures h == Free(c, old(h), pBlock)
    {
      hide HeapOk, Stored, Owns, Free, Load, Store, Mark, ExactFit, At, Next, Config.Ok;
      FreeSetup(c, h, ram, m_FreeList, pBlock);
      var pBlockHeader := pBlock - c.align;
      assert Load(ram, pBlockHeader + MAGIC, 4) == HEAP_BLOCK_ALLOC_MAGIC;
      var b := FindExactBucket(Load(ram, pBlockHeader + SIZE, 4));
      if m_BucketSize[b] > 0 {
        PushStored(c, h, ram, m_FreeList, pBlock, b);
        LinkFree(pBlockHeader, b, pBlock);
      } else {
        LoseStored(c, h, ram, m_FreeList, pBlock);
        Settle(pBlockHeader, pBlock);
      }
    }

    /** Mark the block free and put it in front of free list `b`. */
    method LinkFree(pBlockHeader: nat, b: nat, ghost pBlock: nat)
      requires HeapOk(c, h) && Owns(c, h, pBlock) && b < |m_FreeList|
      requires c.ptrBytes <= 8 && pBlockHeader + 16 <= |ram|
      requires Stored(c, Free(c, h, pBlock), Mark(c, ram, pBlockHeader, HEAP_BLOCK_FREE_MAGIC, m_FreeList[b]),
                      m_FreeList[b := pBlockHeader])
      requires m_BucketSize == c.buckets + [0]
      requires var h' := Free(c, h, pBlock);
               m_pNext == Next(h') && m_pLimit == h'.limit && m_nReserve == h'.reserve
      modifies this
      ensures Valid() && h == Free(c, old(h), pBlock)
    {
      hide HeapOk, Stored, Free, Store, Owns;
      ram := Store(ram, pBlockHeader + MAGIC, 4, HEAP_BLOCK_FREE_MAGIC);
      ram := Store(ram, pBlockHeader + LINK, c.ptrBytes, m_FreeList[b]);
      m_FreeList := m_FreeList[b := pBlockHeader];
      h := Free(c, old(h), pBlock);
    }

    /** A large block is marked free and never found again. */
    method Settle(pBlockHeader: nat, ghost pBlock: nat)
      requires HeapOk(c, h) && Owns(c, h, pBlock) && pBlockHeader + 16 <= |ram| && m_BucketSize == c.buckets + [0]
      requires Stored(c, Free(c, h, pBlock), Store(ram, pBlockHeader + MAGIC, 4, HEAP_BLOCK_FREE_MAGIC), m_FreeList)
      requires var h' := Free(c, h, pBlock);
               m_pNext == Next(h') && m_pLimit == h'.limit && m_nReserve == h'.reserve
      modifies this`ram, this`h
      ensures Valid() && h == Free(c, old(h), pBlock)
    {
      hide HeapOk, Stored, Free, Store, Owns;
      ram := Store(ram, pBlockHeader + MAGIC, 4, HEAP_BLOCK_FREE_MAGIC);
      h := Free(c, old(h), pBlock);
    }

    method DoReAllocate(pBlock: nat, nSize: nat) returns (pResult: nat)
      requires Valid() && CanReAllocate(c, h, pBlock, nSize)
      modifies this
      ensures Valid()
      ensures (h, pResult) == ReAllocate(c, old(h), pBlock, nSize) && h == Step(c, old(h), ReAlloc(pBlock, nSize))
    {
      ghost var h0 := h;
      if pBlock == 0 {
        pResult := DoAllocate(nSize);
        return;
      }
      if nSize == 0 {
        DoFree(pBlock);
        return 0;
      }
      pResult := Enlarge(pBlock, nSize);
    }

    /** Keep the block if it is large enough, otherwise move it. */
    method Enlarge(pBlock: nat, nSize: nat) returns (pResult: nat)
      requires Valid() && pBlock != 0 && nSize != 0 && CanReAllocate(c, h, pBlock, nSize)
      modifies this
      ensures Valid()
      ensures (h, pResult) == ReAllocate(c, old(h), pBlock, nSize)
    {
      OwnedHeader(c, h, ram, m_FreeList, At(c, h, pBlock));
      var pBlockHeader := pBlock - c.align;
      assert Load(ram, pBlockHeader + MAGIC, 4) == HEAP_BLOCK_ALLOC_MAGIC;
      assert HeapOk(c, h);
      hide HeapOk, Stored, Load, Allocate, Config.Ok, MoveTo;
      if Load(ram, pBlockHeader + SIZE, 4) >= nSize { return pBlock; }
      var pNewBlock := DoAllocate(nSize);
      if pNewBlock == 0 { return 0; }
      CopyFrom(pBlock, pNewBlock, nSize, old(h));
      DoFree(pBlock);
      pResult := pNewBlock;
    }

    /** Copy the old block, as long as its header says, to the new one. */
    method CopyFrom(pBlock: nat, pNewBlock: nat, ghost nSize: nat, ghost h0: Heap)
      requires HeapOk(c, h0) && CanReAllocate(c, h0, pBlock, nSize) && Moves(c, h0, pBlock, nSize)
      requires Valid() && pNewBlock != 0 && (h, pNewBlock) == Allocate(c, h0, nSize)
      modifies this
      ensures Valid()
      ensures Owns(c, h, pBlock) && Free(c, h, pBlock) == MoveTo(c, h0, old(h), pBlock, pNewBlock, nSize)
    {
      hide HeapOk, Stored, Load, Allocate, MoveTo, Write, Free, Patch, Config.Word;
      ghost var bytes := h0.blocks[At(c, h0, pBlock)].data[..h0.blocks[At(c, h0, pBlock)].size];
      CopySource(c, h0, h, ram, m_FreeList, pBlock, pNewBlock, nSize);
      CopyStored(c, h0, h, ram, m_FreeList, pBlock, pNewBlock, nSize);
      var size := Load(ram, pBlock - c.align + SIZE, 4);
      assert ram[pBlock..pBlock + size] == bytes;
      Fill(pNewBlock, 0, ram[pBlock..pBlock + size]);
    }

    /** The owner of a block fills part of it. */
    method Fill(p: nat, offset: nat, bytes: seq<u8>)
      requires Valid() && Owns(c, h, p) && offset + |bytes| <= |h.blocks[At(c, h, p)].data|
      modifies this
      ensures Valid()
      ensures h == Write(c, old(h), p, offset, bytes) == Step(c, old(h), Put(p, offset, bytes))
    {
      WriteStored(c, h, ram, m_FreeList, p, offset, bytes);
      hide Stored, HeapOk, Owns, At;
      ram := Patch(ram, p + offset, bytes);
      h := Write(c, h, p, offset, bytes);
    }
  }

  /** What TakeListed finds and leaves. */
  lemma ListedReady(c: Config, h: Heap, ram: seq<u8>, heads: seq<nat>, n: nat)
    requires Stored(c, h, ram, heads) && n < c.Word() && Recycles(c, h, n)
    ensures ListsOk(c, h) && c.ptrBytes <= 8
    ensures var b, h' := FirstFit(c.buckets, n), Recycle(c, h, n).0;
            && b < |heads| && heads[b] + 16 <= |ram|
            && Recycle(c, h, n).1 == heads[b] + c.align
            && Load(ram, heads[b] + MAGIC, 4) == HEAP_BLOCK_FREE_MAGIC
            && Stored(c, h', Mark(c, ram, heads[b], HEAP_BLOCK_ALLOC_MAGIC, 0),
                      heads[b := Load(ram, heads[b] + LINK, c.ptrBytes)])
            && Next(h') == Next(h) && h'.limit == h.limit && h'.reserve == h.reserve
  {
    assert HeapOk(c, h) && c.Ok() && ListsOk(c, h);
    hide HeapOk, Stored, Load, Mark, Recycle, Recycles, FirstFit, ListsOk;
    RecycleStored(c, h, ram, heads, n);
    RecycleRegion(c, h, n);
  }

  lemma FirstFitIs(c: Config, n: nat, b: nat)
    requires b <= |c.buckets| && (b < |c.buckets| ==> n <= c.buckets[b])
    requires forall k :: 0 <= k < b ==> c.buckets[k] < n
    ensures FirstFit(c.buckets, n) == b
    ensures Rounded(c, n) == if b < |c.buckets| then c.buckets[b] else n
  {
  }

  lemma ExactFitIs(c: Config, n: nat, b: nat)
    requires b <= |c.buckets| && (b < |c.buckets| ==> n == c.buckets[b])
    requires forall k :: 0 <= k < b ==> c.buckets[k] != n
    ensures ExactFit(c.buckets, n) == b
  {
  }

  /** Facts a method needs before the invariant is hidden. */
  lemma Positive(c: Config, h: Heap, ram: seq<u8>, heads: seq<nat>)
    requires Stored(c, h, ram, heads)
    ensures |heads| == |h.lists| == |c.buckets| && 16 <= c.align && c.ptrBytes <= 8
    ensures forall k :: 0 <= k < |c.buckets| ==> 0 < c.buckets[k]
  {
  }

  lemma FreeSetup(c: Config, h: Heap, ram: seq<u8>, heads: seq<nat>, p: nat)
    requires Stored(c, h, ram, heads) && Owns(c, h, p)
    ensures HeapOk(c, h) && |heads| == |c.buckets| && 16 <= c.align <= p && c.ptrBytes <= 8 && p - c.align + 16 <= |ram|
    ensures forall k :: 0 <= k < |c.buckets| ==> 0 < c.buckets[k]
    ensures Load(ram, p - c.align + MAGIC, 4) == HEAP_BLOCK_ALLOC_MAGIC
    ensures Load(ram, p - c.align + SIZE, 4) == h.blocks[At(c, h, p)].size
    ensures var h' := Free(c, h, p); h'.limit == h.limit && h'.reserve == h.reserve && Next(h') == Next(h)
  {
    Positive(c, h, ram, heads);
    OwnedHeader(c, h, ram, heads, At(c, h, p));
    FreeRegion(c, h, p);
  }

  lemma RecycleRegion(c: Config, h: Heap, n: nat)
    requires HeapOk(c, h) && Recycles(c, h, n)
    ensures var h' := Recycle(c, h, n).0; h'.limit == h.limit && h'.reserve == h.reserve && Next(h') == Next(h)
  {
  }

  lemma FreeRegion(c: Config, h: Heap, p: nat)
    requires HeapOk(c, h) && Owns(c, h, p)
    ensures var h' := Free(c, h, p); h'.limit == h.limit && h'.reserve == h.reserve && Next(h') == Next(h)
  {
  }

  /** After the new block is taken the old one still reads as before, and the copy fits. */
  lemma CopySource(c: Config, h0: Heap, h: Heap, ram: seq<u8>, heads: seq<nat>, p: nat, q: nat, n: nat)
    requires HeapOk(c, h0) && CanReAllocate(c, h0, p, n) && Moves(c, h0, p, n)
    requires (h, q) == Allocate(c, h0, n) && q != 0 && Stored(c, h, ram, heads)
    ensures Owns(c, h, p) && Owns(c, h, q) && 16 <= c.align <= p && p - c.align + 16 <= |ram|
    ensures var b := h0.blocks[At(c, h0, p)];
            && p + b.size <= |ram|
            && Load(ram, p - c.align + SIZE, 4) == b.size
            && ram[p..p + b.size] == b.data[..b.size]
            && b.size <= |h.blocks[At(c, h, q)].data|
  {
    hide HeapOk, Allocate, Free, Load, Stored, Grows, Config.Word;
    AllocateResult(c, h0, n);
    var b := h0.blocks[At(c, h0, p)];
    OwnedHeader(c, h, ram, heads, At(c, h, p));
    assert h.blocks[At(c, h, p)] == b && b.addr == p - c.align;
    assert End(c, b) == p + |b.data|;
    SliceOfSlice(ram, p, p + |b.data|, 0, b.size);
  }

  /** The copy, and the state Free then starts from. */
  lemma CopyStored(c: Config, h0: Heap, h: Heap, ram: seq<u8>, heads: seq<nat>, p: nat, q: nat, n: nat)
    requires HeapOk(c, h0) && CanReAllocate(c, h0, p, n) && Moves(c, h0, p, n)
    requires (h, q) == Allocate(c, h0, n) && q != 0 && Stored(c, h, ram, heads)
    requires Owns(c, h, p) && Owns(c, h, q)
    requires h0.blocks[At(c, h0, p)].size <= |h.blocks[At(c, h, q)].data|
    ensures var bytes := h0.blocks[At(c, h0, p)].data[..h0.blocks[At(c, h0, p)].size];
            var h2 := Write(c, h, q, 0, bytes);
            && q + |bytes| <= |ram|
            && Stored(c, h2, Patch(ram, q, bytes), heads)
            && Next(h2) == Next(h) && h2.limit == h.limit && h2.reserve == h.reserve
            && Owns(c, h2, p)
            && Free(c, h2, p) == MoveTo(c, h0, h, p, q, n)
  {
    hide Allocate, Free, ListsOk, Tiled, BlockOk, Within, BlocksStored, LinksStored, Patch, Config.Ok;
    assert HeapOk(c, h);
    hide HeapOk;
    assert !Owns(c, h0, q) by { AllocateResult(c, h0, n); }
    var b := h0.blocks[At(c, h0, p)];
    WriteStored(c, h, ram, heads, q, 0, b.data[..b.size]);
    hide Stored;
    WriteKeepsOthers(c, h, q, 0, b.data[..b.size]);
  }

  lemma EmptyStored(c: Config, h: Heap, ram: seq<u8>, heads: seq<nat>)
    requires c.Ok() && c.Aligned(h.base) && h.blocks == [] && h.base == Next(h) <= h.limit < c.Word()
    requires h.limit <= |ram| && h.reserve <= h.limit && h.arena == ram[Next(h)..h.limit]
    requires |h.lists| == |heads| == |c.buckets|
    requires forall b :: 0 <= b < |heads| ==> heads[b] == 0 && h.lists[b] == []
    ensures Stored(c, h, ram, heads)
  {
  }

  /** Without blocks no list has an element. */
  lemma ListsEmpty(c: Config, h: Heap, ram: seq<u8>, heads: seq<nat>)
    requires Stored(c, h, ram, heads) && h.blocks == []
    ensures |h.lists| == |heads| == |c.buckets|
    ensures forall b :: 0 <= b < |heads| ==> heads[b] == 0 && h.lists[b] == []
  {
    forall b | 0 <= b < |heads| ensures heads[b] == 0 && h.lists[b] == [] {
      assert heads[b] == Link(h, b, 0);
    }
  }

  /** Which branch a request takes, as the list heads show it. */
  lemma Branches(c: Config, h: Heap, ram: seq<u8>, heads: seq<nat>, n: nat)
    requires Stored(c, h, ram, heads) && n < c.Word()
    ensures |heads| == |h.lists| == |c.buckets| && 16 <= c.align && c.ptrBytes <= 8
    ensures forall k :: 0 <= k < |c.buckets| ==> 0 < c.buckets[k]
    ensures Recycles(c, h, n) <==> var b := FirstFit(c.buckets, n); b < |c.buckets| && heads[b] != 0
    ensures Next(h) == 0 ==> Allocate(c, h, n) == (h, 0)
    ensures Next(h) != 0 && Recycles(c, h, n) ==> Allocate(c, h, n) == Recycle(c, h, n)
  {
    var b := FirstFit(c.buckets, n);
    if b < |c.buckets| { HeadMeansList(c, h, ram, heads, b); }
  }

  ghost predicate Refuses(c: Config, h: Heap, size: nat)
    requires c.Ok() && 0 <= Next(h) < c.Word() && size < c.Word()
  {
    var nextBlock := c.Wrap(Next(h) + Extent(c, size));
    nextBlock <= Next(h) || nextBlock > h.limit - h.reserve
  }

  lemma FreshSetup(c: Config, h: Heap, ram: seq<u8>, heads: seq<nat>, n: nat)
    requires Stored(c, h, ram, heads) && n < c.Word()
    ensures c.Ok() && 0 <= Next(h) < c.Word() && Rounded(c, n) < c.Word() && h.reserve <= h.limit
    ensures Extent(c, Rounded(c, n)) < c.Word()
  {
  }

  lemma FreshRefused(c: Config, h: Heap, ram: seq<u8>, heads: seq<nat>, n: nat)
    requires Stored(c, h, ram, heads) && n < c.Word() && Next(h) != 0
    requires |h.lists| == |c.buckets| && !Recycles(c, h, n) && Refuses(c, h, Rounded(c, n))
    ensures Allocate(c, h, n) == (h.(reserve := 0), 0) && Stored(c, h.(reserve := 0), ram, heads)
  {
    ReserveGone(c, h, ram, heads);
  }

  lemma FreshTaken(c: Config, h: Heap, ram: seq<u8>, heads: seq<nat>, n: nat)
    requires Stored(c, h, ram, heads) && n < c.Word() && Next(h) != 0
    requires |h.lists| == |c.buckets| && !Recycles(c, h, n) && !Refuses(c, h, Rounded(c, n))
    ensures 16 <= c.align && c.ptrBytes <= 8 && 0 <= Next(h) && Next(h) + 16 <= |ram|
    ensures Allocate(c, h, n).1 == Next(h) + c.align
    ensures Next(Allocate(c, h, n).0) == c.Wrap(Next(h) + Extent(c, Rounded(c, n)))
    ensures Allocate(c, h, n).0.limit == h.limit && Allocate(c, h, n).0.reserve == h.reserve
    ensures Stored(c, Allocate(c, h, n).0, Fresh(c, ram, Next(h), Rounded(c, n) % U32), heads)
  {
    BumpStored(c, h, ram, heads, n);
    FitsBounds(c, h, Extent(c, Rounded(c, n)));
    BumpFrames(c, h, ram, n, Extent(c, Rounded(c, n)));
  }

  /** The reserve is no part of what the bytes show. */
  lemma ReserveGone(c: Config, h: Heap, ram: seq<u8>, heads: seq<nat>)
    requires Stored(c, h, ram, heads)
    ensures Stored(c, h.(reserve := 0), ram, heads)
  {
    var h' := h.(reserve := 0);
    assert ListsOk(c, h') && HeapOk(c, h') && Within(c, h', ram);
    hide HeapOk, Within, View;
    forall j | 0 <= j < |h.blocks| ensures BlockStored(c, h', ram, j) { assert BlockStored(c, h, ram, j); }
    assert forall d, k: nat :: 0 <= d < |h.lists| ==> Link(h', d, k) == Link(h, d, k);
    forall d, k | 0 <= d < |h.lists| && 0 <= k < |h.lists[d]| ensures LinkStored(c, h', ram, d, k) {
      assert LinkStored(c, h, ram, d, k);
    }
  }

  /** A list is empty exactly when its head is 0. */
  lemma HeadMeansList(c: Config, h: Heap, ram: seq<u8>, heads: seq<nat>, b: nat)
    requires Stored(c, h, ram, heads) && b < |c.buckets|
    ensures b < |heads| == |h.lists|
    ensures heads[b] != 0 <==> h.lists[b] != []
  {
    assert heads[b] == Link(h, b, 0);
    if h.lists[b] != [] {
      ListHead(c, h, b);
      assert BlockOk(c, h.blocks[h.lists[b][0]]);
    }
  }
}
