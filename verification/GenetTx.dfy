/**
 The transmit rings of the GENET Ethernet controller: five rings of buffer descriptors share one
 table of control blocks. The driver fills and reclaims under one lock; the hardware sends the
 descriptors between its consumer index and the driver's producer index, at any time.
 */
module GenetTx {
  import opened Basics

  const TX_QUEUES: nat := 4
  const TX_BDS_PER_Q: nat := 32
  const TOTAL_DESC: nat := 256
  const GENET_Q16_TX_BD_CNT: nat := TOTAL_DESC - TX_QUEUES * TX_BDS_PER_Q
  const RINGS: nat := TX_QUEUES + 1
  const INDICES: nat := 0x1_0000   // producer and consumer index have 16 bits
  const ENET_MAX_MTU_SIZE: nat := 1536
  const ETH_ZLEN: nat := 60

  /** The ring of an SendFrame queue number: 0 is the default ring, the last one here. */
  function RingOf(queue: nat): (k: nat)
    requires queue <= TX_QUEUES
    ensures k < RINGS
  {
    if queue == 0 then TX_QUEUES else queue - 1
  }

  function Size(k: nat): nat { if k < TX_QUEUES then TX_BDS_PER_Q else GENET_Q16_TX_BD_CNT }
  function Start(k: nat): nat { k * TX_BDS_PER_Q }

  /** The descriptor of the i-th frame ever given to ring k. */
  function Slot(k: nat, i: nat): (p: nat)
    requires k < RINGS
    ensures Start(k) <= p < Start(k) + Size(k) <= TOTAL_DESC
  {
    if k < TX_QUEUES then k * TX_BDS_PER_Q + i % TX_BDS_PER_Q
    else k * TX_BDS_PER_Q + i % GENET_Q16_TX_BD_CNT
  }

  /** Software's view of a ring. */
  datatype TxRing = TxRing(
    size: nat, cbPtr: nat, endPtr: nat,
    cleanPtr: nat, cIndex: nat, freeBds: int, writePtr: nat, prodIndex: nat)

  /** The hardware's registers of a ring. */
  datatype Port = Port(prod: nat, cons: nat, read: nat)

  datatype Desc = Desc(addr: nat, len: nat)

  /** What happened on a ring so far: frames put in with their buffers, frames that went out on the
      wire, buffers given back. */
  datatype Log = Log(frames: seq<seq<u8>>, allocs: seq<nat>, wire: seq<seq<u8>>, frees: seq<nat>)

  /** Who holds the transmit lock: a sender between filling a descriptor and publishing it, or
      tx_reclaim after reading the consumer index. */
  datatype Lock = Open | Filled(k: nat) | Reclaiming(k: nat, cIndex: nat, ready: nat, processed: nat)

  /** `cbs` are the buffer pointers of the control blocks, 0 for none; `live` is the memory of the
      allocated frame buffers. */
  datatype State = State(
    rings: seq<TxRing>, ports: seq<Port>, logs: seq<Log>,
    cbs: seq<nat>, descs: seq<Desc>, live: map<nat, seq<u8>>, lock: Lock)

  // ---------------------------------------------------------------- init_tx_queues

  function InitRing(size: nat, startPtr: nat, endPtr: nat): TxRing
    requires endPtr > 0
  {
    TxRing(size, startPtr, endPtr - 1, startPtr, 0, size, startPtr, 0)
  }

  function InitialRing(k: nat): TxRing
    requires k < RINGS
  {
    InitRing(Size(k), Start(k), Start(k) + Size(k))
  }

  function Initial(): (s: State) {
    State(seq(RINGS, k requires 0 <= k < RINGS => InitialRing(k)),
          seq(RINGS, k requires 0 <= k < RINGS => Port(0, 0, Start(k))),
          seq(RINGS, _ => Log([], [], [], [])),
          seq(TOTAL_DESC, _ => 0), seq(TOTAL_DESC, _ => Desc(0, 0)), map[], Open)
  }

  /** Every descriptor belongs to exactly one ring. */
  lemma RingsPartition(p: nat)
    requires p < TOTAL_DESC
    ensures exists k :: 0 <= k < RINGS && InitialRing(k).cbPtr <= p <= InitialRing(k).endPtr
    ensures forall j, k :: 0 <= j < k < RINGS ==>
                             !(InitialRing(j).cbPtr <= p <= InitialRing(j).endPtr &&
                               InitialRing(k).cbPtr <= p <= InitialRing(k).endPtr)
    ensures forall k :: 0 <= k < RINGS ==>
                          InitialRing(k).endPtr < TOTAL_DESC && InitialRing(k).size == InitialRing(k).endPtr - InitialRing(k).cbPtr + 1
  {
    var k := if p < TX_QUEUES * TX_BDS_PER_Q then p / TX_BDS_PER_Q else TX_QUEUES;
    assert InitialRing(k).cbPtr <= p <= InitialRing(k).endPtr;
  }

  // ---------------------------------------------------------------- steps

  function Padded(frame: seq<u8>): (f: seq<u8>)
    ensures frame <= f && |f| == (if |frame| < 60 then 60 else |frame|)
    ensures forall i :: |frame| <= i < |f| ==> f[i] == 0
  {
    if |frame| < ETH_ZLEN then frame + Repeat<u8>(0, ETH_ZLEN - |frame|) else frame
  }

  datatype Event =
    | Fill(queue: nat, frame: seq<u8>, addr: nat, junk: seq<u8>) // SendFrame up to dmadesc_set; new returned addr
    | Publish                                                    // the rest of SendFrame
    | Transmit(k: nat)                                           // the hardware sends one frame
    | Look(k: nat)                                               // tx_reclaim reads the consumer index
    | FreeOne                                                    // one turn of its loop
    | Settle                                                     // its end

  predicate Room(r: TxRing) { r.freeBds >= 2 }

  predicate Shape(s: State) {
    && |s.rings| == |s.ports| == |s.logs| == RINGS && |s.cbs| == |s.descs| == TOTAL_DESC
    && forall k :: 0 <= k < RINGS ==> InTable(s.rings[k], s.ports[k])
  }

  predicate InTable(r: TxRing, h: Port) {
    r.writePtr < TOTAL_DESC && r.cleanPtr < TOTAL_DESC && h.read < TOTAL_DESC
  }

  predicate Enabled(s: State, e: Event)
    requires Shape(s)
  {
    match e
    case Fill(queue, frame, addr, junk) =>
      && s.lock.Open? && queue <= TX_QUEUES && 0 < |frame| <= ENET_MAX_MTU_SIZE
      && |junk| == ENET_MAX_MTU_SIZE && addr != 0 && addr !in s.live
    case Publish => s.lock.Filled? && s.lock.k < RINGS
    case Transmit(k) => k < RINGS && s.ports[k].cons != s.ports[k].prod
    case Look(k) => s.lock.Open? && k < RINGS
    case FreeOne => s.lock.Reclaiming? && s.lock.k < RINGS && s.lock.processed < s.lock.ready
    case Settle => s.lock.Reclaiming? && s.lock.k < RINGS && s.lock.processed == s.lock.ready
  }

  /** The pointer after `p` in a ring. */
  function NextPtr(r: TxRing, p: nat): nat {
    if p == r.endPtr then r.cbPtr else p + 1
  }

  /** The buffer SendFrame fills: what follows the padded frame is what `new` left there. */
  function Buffer(frame: seq<u8>, junk: seq<u8>): (b: seq<u8>)
    requires |frame| <= ENET_MAX_MTU_SIZE == |junk|
    ensures |b| == ENET_MAX_MTU_SIZE && Padded(frame) <= b
  {
    Padded(frame) + junk[|Padded(frame)|..]
  }

  function FillStep(s: State, k: nat, frame: seq<u8>, addr: nat, junk: seq<u8>): State
    requires Shape(s) && k < RINGS && |frame| <= ENET_MAX_MTU_SIZE == |junk|
  {
    var r, l := s.rings[k], s.logs[k];
    var p := r.writePtr;
    s.(rings := s.rings[k := r.(writePtr := NextPtr(r, p))],
       logs := s.logs[k := l.(frames := l.frames + [Padded(frame)], allocs := l.allocs + [addr])],
       cbs := s.cbs[p := addr],
       descs := s.descs[p := Desc(addr, |Padded(frame)|)],
       live := s.live[addr := Buffer(frame, junk)],
       lock := Filled(k))
  }

  function PublishStep(s: State): State
    requires Shape(s) && Enabled(s, Publish)
  {
    var k := s.lock.k;
    var r := s.rings[k];
    var prod := (r.prodIndex + 1) % INDICES;
    s.(rings := s.rings[k := r.(freeBds := r.freeBds - 1, prodIndex := prod)],
       ports := s.ports[k := s.ports[k].(prod := prod)],
       lock := Open)
  }

  /** The hardware sends what its descriptor points to. */
  function TransmitStep(s: State, k: nat): State
    requires Shape(s) && k < RINGS
  {
    var h, l := s.ports[k], s.logs[k];
    var d := s.descs[h.read];
    var bytes := if d.addr in s.live && d.len <= |s.live[d.addr]| then s.live[d.addr][..d.len] else [];
    s.(ports := s.ports[k := h.(cons := (h.cons + 1) % INDICES, read := NextPtr(s.rings[k], h.read))],
       logs := s.logs[k := l.(wire := l.wire + [bytes])])
  }

  function LookStep(s: State, k: nat): State
    requires Shape(s) && k < RINGS
  {
    var c := s.ports[k].cons;
    s.(lock := Reclaiming(k, c, (c - s.rings[k].cIndex) % U32 % INDICES, 0))
  }

  function FreeStep(s: State): State
    requires Shape(s) && Enabled(s, FreeOne)
  {
    var k := s.lock.k;
    var r, l := s.rings[k], s.logs[k];
    var buffer := s.cbs[r.cleanPtr];
    var s' := s.(rings := s.rings[k := r.(cleanPtr := if r.cleanPtr < r.endPtr then r.cleanPtr + 1 else r.cbPtr)],
                 lock := s.lock.(processed := s.lock.processed + 1));
    if buffer == 0 then s'
    else s'.(cbs := s.cbs[r.cleanPtr := 0], live := s.live - {buffer},
             logs := s.logs[k := l.(frees := l.frees + [buffer])])
  }

  function SettleStep(s: State): State
    requires Shape(s) && Enabled(s, Settle)
  {
    var k := s.lock.k;
    var r := s.rings[k];
    s.(rings := s.rings[k := r.(freeBds := r.freeBds + s.lock.processed, cIndex := s.lock.cIndex)],
       lock := Open)
  }

  function Apply(s: State, e: Event): State
    requires Inv(s) && Enabled(s, e)
  {
    match e
    case Fill(queue, frame, addr, junk) =>
      var k := RingOf(queue);
      if Room(s.rings[k]) then FillStep(s, k, frame, addr, junk) else s
    case Publish => PublishStep(s)
    case Transmit(k) => TransmitStep(s, k)
    case Look(k) => LookStep(s, k)
    case FreeOne => FreeStep(s)
    case Settle => SettleStep(s)
  }

  // ---------------------------------------------------------------- the invariant

  /** Frames the hardware was told about, and buffers the driver has accounted for. */
  function Published(l: Log, k: nat, lock: Lock): int {
    if lock == Filled(k) then |l.frames| - 1 else |l.frames|
  }

  function Settled(l: Log, k: nat, lock: Lock): int {
    if lock.Reclaiming? && lock.k == k then |l.frees| - lock.processed else |l.frees|
  }

  /** The indices and pointers of a ring are the counts of its history, wrapped around. */
  predicate Counters(r: TxRing, h: Port, l: Log, k: nat, lock: Lock)
    requires k < RINGS
  {
    var F, P, T, R, S := |l.frames|, Published(l, k, lock), |l.wire|, |l.frees|, Settled(l, k, lock);
    && r.size == Size(k) && r.cbPtr == Start(k) && r.endPtr == Start(k) + Size(k) - 1
    && |l.allocs| == F
    && 0 <= S <= R <= T <= P <= F < S + Size(k)
    && r.prodIndex == h.prod == P % INDICES && r.cIndex == S % INDICES && h.cons == T % INDICES
    && r.freeBds == Size(k) - (P - S)
    && r.writePtr == Slot(k, F) && r.cleanPtr == Slot(k, R) && h.read == Slot(k, T)
    && (lock.Reclaiming? && lock.k == k ==>
          lock.processed <= lock.ready && S + lock.ready <= T && lock.cIndex == (S + lock.ready) % INDICES)
  }

  /** Frame i's descriptor, control block and buffer are in place. */
  predicate Holds(l: Log, i: nat, cb: nat, d: Desc, live: map<nat, seq<u8>>)
    requires i < |l.frames| == |l.allocs|
  {
    && cb == l.allocs[i] && cb != 0 && cb in live
    && d == Desc(cb, |l.frames[i]|) && l.frames[i] <= live[cb]
  }

  ghost predicate Slots(l: Log, k: nat, cbs: seq<nat>, descs: seq<Desc>, live: map<nat, seq<u8>>)
    requires k < RINGS && |cbs| == |descs| == TOTAL_DESC && |l.frames| == |l.allocs|
  {
    && (forall i :: |l.frees| <= i < |l.frames| ==> Holds(l, i, cbs[Slot(k, i)], descs[Slot(k, i)], live))
    && (forall i :: |l.frames| <= i < |l.frees| + Size(k) ==> cbs[Slot(k, i)] == 0)
  }

  /** What went out and what was given back is the front part of what was put in. */
  predicate Histories(l: Log)
  {
    && |l.wire| <= |l.frames| && l.wire == l.frames[..|l.wire|]
    && |l.frees| <= |l.allocs| && l.frees == l.allocs[..|l.frees|]
  }

  /** No two control blocks share a buffer, and no buffer is without its control block. */
  ghost predicate Owned(cbs: seq<nat>, live: map<nat, seq<u8>>) {
    && (forall p, q :: 0 <= p < q < |cbs| && cbs[p] != 0 ==> cbs[p] != cbs[q])
    && (forall p :: 0 <= p < |cbs| && cbs[p] != 0 ==> cbs[p] in live)
    && (forall a :: a in live ==> a in cbs && a != 0)
  }

  ghost predicate RingOk(s: State, k: nat)
    requires Shape(s) && k < RINGS
  {
    && Counters(s.rings[k], s.ports[k], s.logs[k], k, s.lock)
    && Slots(s.logs[k], k, s.cbs, s.descs, s.live)
    && Histories(s.logs[k])
  }

  ghost predicate Inv(s: State) {
    && Shape(s) && Owned(s.cbs, s.live)
    && (s.lock.Open? || s.lock.k < RINGS)
    && forall k :: 0 <= k < RINGS ==> RingOk(s, k)
  }

  lemma InitialInv()
    ensures Inv(Initial())
  {
    var s := Initial();
    forall k | 0 <= k < RINGS ensures RingOk(s, k) {
      assert Slot(k, 0) == Start(k);
    }
  }

  // ---------------------------------------------------------------- slots

  lemma SlotNext(k: nat, i: nat)
    requires k < RINGS
    ensures Slot(k, i + 1) == if Slot(k, i) == Start(k) + Size(k) - 1 then Start(k) else Slot(k, i) + 1
  {
    if k < TX_QUEUES { Next32(i); } else { Next128(i); }
  }

  lemma Next32(i: nat)
    ensures (i + 1) % 32 == if i % 32 == 31 then 0 else i % 32 + 1
  {
  }

  lemma Next128(i: nat)
    ensures (i + 1) % 128 == if i % 128 == 127 then 0 else i % 128 + 1
  {
  }

  lemma SlotLap(k: nat, i: nat)
    requires k < RINGS
    ensures Slot(k, i + Size(k)) == Slot(k, i)
  {
    if k < TX_QUEUES { Lap32(i); } else { Lap128(i); }
  }

  lemma Lap32(i: nat)
    ensures (i + 32) % 32 == i % 32
  {
    assert i + 32 == 32 * (i / 32 + 1) + i % 32;
  }

  lemma Lap128(i: nat)
    ensures (i + 128) % 128 == i % 128
  {
    assert i + 128 == 128 * (i / 128 + 1) + i % 128;
  }

  lemma SlotDistinct(k: nat, i: nat, j: nat)
    requires k < RINGS && i < j < i + Size(k)
    ensures Slot(k, i) != Slot(k, j)
  {
    if k < TX_QUEUES { Distinct32(i, j); } else { Distinct128(i, j); }
  }

  lemma Distinct32(i: nat, j: nat)
    requires i < j < i + 32
    ensures i % 32 != j % 32
  {
    assert i == 32 * (i / 32) + i % 32 && j == 32 * (j / 32) + j % 32;
  }

  lemma Distinct128(i: nat, j: nat)
    requires i < j < i + 128
    ensures i % 128 != j % 128
  {
    assert i == 128 * (i / 128) + i % 128 && j == 128 * (j / 128) + j % 128;
  }

  // ---------------------------------------------------------------- every step keeps it

  /** A step on ring k leaves another ring as it was when it touches none of its buffers. */
  lemma OtherRing(s: State, s': State, j: nat, k: nat, p: nat)
    requires Shape(s) && Shape(s') && j < RINGS && k < RINGS && j != k
    requires RingOk(s, j) && Start(k) <= p < Start(k) + Size(k)
    requires s'.rings[j] == s.rings[j] && s'.ports[j] == s.ports[j] && s'.logs[j] == s.logs[j]
    requires forall q :: 0 <= q < TOTAL_DESC && q != p ==> s'.cbs[q] == s.cbs[q] && s'.descs[q] == s.descs[q]
    requires forall q :: 0 <= q < TOTAL_DESC && q != p && s.cbs[q] in s.live && s.cbs[q] != 0 ==>
                           s.cbs[q] in s'.live && s'.live[s.cbs[q]] == s.live[s.cbs[q]]
    requires s.lock.Open? || s.lock.k != j
    requires s'.lock.Open? || s'.lock.k != j
    ensures RingOk(s', j)
  {
    assert Counters(s'.rings[j], s'.ports[j], s'.logs[j], j, s'.lock);
    hide Counters;
    var l := s.logs[j];
    forall i ensures Slot(j, i) != p { }
    forall i | |l.frees| <= i < |l.frames|
      ensures Holds(l, i, s'.cbs[Slot(j, i)], s'.descs[Slot(j, i)], s'.live)
    {
      assert Holds(l, i, s.cbs[Slot(j, i)], s.descs[Slot(j, i)], s.live);
    }
  }

  lemma Wraps(n: nat)
    ensures (n % INDICES + 1) % INDICES == (n + 1) % INDICES
  {
  }

  lemma FillKeeps(s: State, k: nat, frame: seq<u8>, addr: nat, junk: seq<u8>)
    requires Inv(s) && k < RINGS && Room(s.rings[k]) && s.lock.Open?
    requires 0 < |frame| <= ENET_MAX_MTU_SIZE == |junk| && addr != 0 && addr !in s.live
    ensures Inv(FillStep(s, k, frame, addr, junk))
  {
    hide Slots, Padded, Buffer, Owned;
    var s' := FillStep(s, k, frame, addr, junk);
    assert RingOk(s, k);
    FillRing(s, k, frame, addr, junk);
    FillOwned(s.cbs, s.live, s.rings[k].writePtr, addr, Buffer(frame, junk));
    forall j | 0 <= j < RINGS && j != k ensures RingOk(s', j) {
      OtherRing(s, s', j, k, s.rings[k].writePtr);
    }
  }

  lemma FillOwned(cbs: seq<nat>, live: map<nat, seq<u8>>, p: nat, addr: nat, b: seq<u8>)
    requires Owned(cbs, live) && p < |cbs| && cbs[p] == 0 && addr != 0 && addr !in live
    ensures Owned(cbs[p := addr], live[addr := b])
  {
    var cbs' := cbs[p := addr];
    assert cbs'[p] == addr;
    forall a | a in live ensures a in cbs' {
      var q :| 0 <= q < |cbs| && cbs[q] == a;
      assert cbs'[q] == a;
    }
  }

  lemma FillCounters(r: TxRing, h: Port, l: Log, k: nat, frame: seq<u8>, addr: nat)
    requires k < RINGS && Counters(r, h, l, k, Open) && Room(r)
    ensures |l.frames| + 1 < |l.frees| + Size(k) && r.writePtr == Slot(k, |l.frames|)
    ensures NextPtr(r, r.writePtr) < TOTAL_DESC
    ensures Counters(r.(writePtr := NextPtr(r, r.writePtr)), h,
                     l.(frames := l.frames + [frame], allocs := l.allocs + [addr]), k, Filled(k))
  {
    SlotNext(k, |l.frames|);
    hide Slot;
  }

  lemma FillSlots(l: Log, k: nat, cbs: seq<nat>, descs: seq<Desc>, live: map<nat, seq<u8>>, frame: seq<u8>, addr: nat, b: seq<u8>)
    requires k < RINGS && |cbs| == |descs| == TOTAL_DESC && |l.frees| <= |l.frames| == |l.allocs|
    requires |l.frames| + 1 < |l.frees| + Size(k)
    requires Slots(l, k, cbs, descs, live) && addr != 0 && addr !in live && frame <= b
    ensures var p := Slot(k, |l.frames|);
            && cbs[p] == 0
            && Slots(l.(frames := l.frames + [frame], allocs := l.allocs + [addr]), k,
                     cbs[p := addr], descs[p := Desc(addr, |frame|)], live[addr := b])
  {
    var F := |l.frames|;
    var p, l' := Slot(k, F), l.(frames := l.frames + [frame], allocs := l.allocs + [addr]);
    forall i | |l.frees| <= i < F ensures Slot(k, i) != p { SlotDistinct(k, i, F); }
    forall i | F < i < |l.frees| + Size(k) ensures Slot(k, i) != p { SlotDistinct(k, F, i); }
    hide Slot;
    forall i | |l.frees| <= i < F
      ensures Holds(l', i, cbs[p := addr][Slot(k, i)], descs[p := Desc(addr, |frame|)][Slot(k, i)], live[addr := b])
    {
      assert Holds(l, i, cbs[Slot(k, i)], descs[Slot(k, i)], live);
    }
  }

  lemma FillRing(s: State, k: nat, frame: seq<u8>, addr: nat, junk: seq<u8>)
    requires Inv(s) && k < RINGS && Room(s.rings[k]) && s.lock.Open?
    requires 0 < |frame| <= ENET_MAX_MTU_SIZE == |junk| && addr != 0 && addr !in s.live
    ensures Shape(FillStep(s, k, frame, addr, junk)) && RingOk(FillStep(s, k, frame, addr, junk), k)
    ensures s.cbs[s.rings[k].writePtr] == 0
  {
    hide Slot, Padded, Buffer;
    assert RingOk(s, k);
    FillCounters(s.rings[k], s.ports[k], s.logs[k], k, Padded(frame), addr);
    hide Counters;
    FillSlots(s.logs[k], k, s.cbs, s.descs, s.live, Padded(frame), addr, Buffer(frame, junk));
  }

  /** The ring a step does not work on, when the lock changes hands. */
  lemma LockElsewhere(r: TxRing, h: Port, l: Log, j: nat, lock: Lock, lock': Lock)
    requires j < RINGS && Counters(r, h, l, j, lock)
    requires lock.Open? || lock.k != j
    requires lock'.Open? || lock'.k != j
    ensures Counters(r, h, l, j, lock')
  {
  }

  lemma PublishCounters(r: TxRing, h: Port, l: Log, k: nat)
    requires k < RINGS && Counters(r, h, l, k, Filled(k))
    ensures var prod := (r.prodIndex + 1) % INDICES;
            Counters(r.(freeBds := r.freeBds - 1, prodIndex := prod), h.(prod := prod), l, k, Open)
  {
    Wraps(|l.frames| - 1);
  }

  lemma PublishKeeps(s: State)
    requires Inv(s) && Enabled(s, Publish)
    ensures Inv(PublishStep(s))
  {
    var k := s.lock.k;
    assert RingOk(s, k);
    var s' := PublishStep(s);
    PublishCounters(s.rings[k], s.ports[k], s.logs[k], k);
    hide Counters, Owned, Slots;
    forall j | 0 <= j < RINGS ensures RingOk(s', j) {
      assert RingOk(s, j);
      if j != k { LockElsewhere(s.rings[j], s.ports[j], s.logs[j], j, s.lock, s'.lock); }
    }
  }

  /** As long as the indices differ there is a frame the hardware has not sent. */
  lemma TransmitCounters(r: TxRing, h: Port, l: Log, k: nat, lock: Lock, bytes: seq<u8>)
    requires k < RINGS && Counters(r, h, l, k, lock) && h.cons != h.prod
    ensures |l.frees| <= |l.wire| < Published(l, k, lock) && h.read == Slot(k, |l.wire|)
    ensures Counters(r, h.(cons := (h.cons + 1) % INDICES, read := NextPtr(r, h.read)), l.(wire := l.wire + [bytes]), k, lock)
    ensures NextPtr(r, h.read) < TOTAL_DESC
  {
    hide Slot;
    Wraps(|l.wire|);
    SlotNext(k, |l.wire|);
  }

  lemma TransmitKeeps(s: State, k: nat)
    requires Inv(s) && Enabled(s, Transmit(k))
    ensures Inv(TransmitStep(s, k))
  {
    assert RingOk(s, k);
    TransmitRing(s, k);
    hide Counters, Owned, Slots;
    forall j | 0 <= j < RINGS && j != k ensures RingOk(TransmitStep(s, k), j) {
      assert RingOk(s, j);
    }
  }

  lemma TransmitRing(s: State, k: nat)
    requires Shape(s) && k < RINGS && RingOk(s, k) && s.ports[k].cons != s.ports[k].prod
    ensures Shape(TransmitStep(s, k)) && RingOk(TransmitStep(s, k), k)
  {
    hide Counters, Slot;
    var s', l := TransmitStep(s, k), s.logs[k];
    TransmitCounters(s.rings[k], s.ports[k], l, k, s.lock, s'.logs[k].wire[|l.wire|]);
    SendsNext(s, k);
  }

  /** The descriptor under the hardware's pointer leads to the next frame in order. */
  lemma SendsNext(s: State, k: nat)
    requires Shape(s) && k < RINGS && RingOk(s, k) && s.ports[k].cons != s.ports[k].prod
    ensures |s.logs[k].wire| < |s.logs[k].frames|
    ensures TransmitStep(s, k).logs[k].wire == s.logs[k].wire + [s.logs[k].frames[|s.logs[k].wire|]]
  {
    var l, i := s.logs[k], |s.logs[k].wire|;
    TransmitCounters(s.rings[k], s.ports[k], l, k, s.lock, []);
    hide Counters, Slot;
    var d := s.descs[Slot(k, i)];
    assert Holds(l, i, s.cbs[Slot(k, i)], d, s.live);
    assert s.live[d.addr][..d.len] == l.frames[i];
  }

  /** The number of descriptors to reclaim survives the wrap-around of both indices. */
  lemma ReadyIs(t: nat, r: nat)
    requires r <= t < r + INDICES
    ensures (t % INDICES - r % INDICES) % U32 % INDICES == t - r
  {
    var x := t % INDICES - r % INDICES;
    assert t == INDICES * (t / INDICES) + t % INDICES;
    assert r == INDICES * (r / INDICES) + r % INDICES;
    var q := t / INDICES - r / INDICES;
    assert x == (t - r) - INDICES * q;
    assert q == 0 || q == 1;
  }

  lemma LookCounters(r: TxRing, h: Port, l: Log, k: nat)
    requires k < RINGS && Counters(r, h, l, k, Open)
    ensures (h.cons - r.cIndex) % U32 % INDICES == |l.wire| - |l.frees|
    ensures Counters(r, h, l, k, Reclaiming(k, h.cons, (h.cons - r.cIndex) % U32 % INDICES, 0))
  {
    hide Slot;
    ReadyIs(|l.wire|, |l.frees|);
  }

  lemma LookKeeps(s: State, k: nat)
    requires Inv(s) && Enabled(s, Look(k))
    ensures Inv(LookStep(s, k))
    ensures LookStep(s, k).lock.ready == |s.logs[k].wire| - |s.logs[k].frees|
  {
    var s' := LookStep(s, k);
    assert RingOk(s, k);
    LookCounters(s.rings[k], s.ports[k], s.logs[k], k);
    hide Counters, Slots, Owned;
    forall j | 0 <= j < RINGS ensures RingOk(s', j) {
      assert RingOk(s, j);
      if j != k { LockElsewhere(s.rings[j], s.ports[j], s.logs[j], j, s.lock, s'.lock); }
    }
  }

  lemma FreeOwned(cbs: seq<nat>, live: map<nat, seq<u8>>, p: nat)
    requires Owned(cbs, live) && p < |cbs| && cbs[p] != 0
    ensures Owned(cbs[p := 0], live - {cbs[p]})
  {
    var cbs' := cbs[p := 0];
    forall a | a in live && a != cbs[p] ensures a in cbs' {
      var q :| 0 <= q < |cbs| && cbs[q] == a;
      assert cbs'[q] == a;
    }
  }

  lemma FreeKeeps(s: State)
    requires Inv(s) && Enabled(s, FreeOne)
    ensures Inv(FreeStep(s))
    ensures var k := s.lock.k; FreeStep(s).logs[k].frees == s.logs[k].frees + [s.cbs[s.rings[k].cleanPtr]]
    ensures s.cbs[s.rings[s.lock.k].cleanPtr] in s.live
  {
    var k := s.lock.k;
    assert RingOk(s, k);
    var s' := FreeStep(s);
    OldestHeld(s, k);
    FreeRing(s);
    FreeOwned(s.cbs, s.live, s.rings[k].cleanPtr);
    FreeOthers(s);
  }

  lemma FreeOthers(s: State)
    requires Inv(s) && Enabled(s, FreeOne)
    requires s.cbs[s.rings[s.lock.k].cleanPtr] != 0 && s.rings[s.lock.k].cleanPtr == Slot(s.lock.k, |s.logs[s.lock.k].frees|)
    requires Shape(FreeStep(s))
    ensures forall j :: 0 <= j < RINGS && j != s.lock.k ==> RingOk(FreeStep(s), j)
  {
    hide Counters, Slots;
    forall j | 0 <= j < RINGS && j != s.lock.k ensures RingOk(FreeStep(s), j) {
      assert RingOk(s, j);
      OtherRing(s, FreeStep(s), j, s.lock.k, s.rings[s.lock.k].cleanPtr);
    }
  }

  lemma FreeCounters(r: TxRing, h: Port, l: Log, k: nat, lock: Lock, buffer: nat)
    requires k < RINGS && Counters(r, h, l, k, lock) && lock.Reclaiming? && lock.k == k && lock.processed < lock.ready
    ensures |l.frees| < |l.frames| && r.cleanPtr == Slot(k, |l.frees|)
    ensures var p := if r.cleanPtr < r.endPtr then r.cleanPtr + 1 else r.cbPtr;
            && p < TOTAL_DESC
            && Counters(r.(cleanPtr := p), h, l.(frees := l.frees + [buffer]), k, lock.(processed := lock.processed + 1))
  {
    hide Slot;
    SlotNext(k, |l.frees|);
  }

  lemma FreeRing(s: State)
    requires Shape(s) && Enabled(s, FreeOne) && s.lock.k < RINGS && RingOk(s, s.lock.k) && CleanHeld(s, s.lock.k)
    ensures Shape(FreeStep(s)) && RingOk(FreeStep(s), s.lock.k)
  {
    hide Slot, Slots, Owned, Holds, Histories;
    var k := s.lock.k;
    FreeCounters(s.rings[k], s.ports[k], s.logs[k], k, s.lock, s.cbs[s.rings[k].cleanPtr]);
    hide Counters;
    FreeSlots(s.logs[k], k, s.cbs, s.descs, s.live);
    FreeHistories(s.logs[k]);
  }

  lemma FreeHistories(l: Log)
    requires Histories(l) && |l.frees| < |l.allocs|
    ensures Histories(l.(frees := l.frees + [l.allocs[|l.frees|]]))
  {
    var R := |l.frees|;
    assert l.allocs[..R + 1] == l.allocs[..R] + [l.allocs[R]];
  }

  /** The oldest frame in flight lies under the clean pointer. */
  ghost predicate CleanHeld(s: State, k: nat)
    requires Shape(s) && k < RINGS
  {
    var l, p := s.logs[k], s.rings[k].cleanPtr;
    && Owned(s.cbs, s.live) && |l.frees| < |l.frames| == |l.allocs| && |l.frames| < |l.frees| + Size(k)
    && p == Slot(k, |l.frees|) && s.cbs[p] == l.allocs[|l.frees|] && s.cbs[p] != 0 && s.cbs[p] in s.live
  }

  lemma OldestHeld(s: State, k: nat)
    requires Inv(s) && k < RINGS && RingOk(s, k) && |s.logs[k].frees| < |s.logs[k].frames|
    ensures CleanHeld(s, k)
  {
    var l, R := s.logs[k], |s.logs[k].frees|;
    assert Holds(l, R, s.cbs[Slot(k, R)], s.descs[Slot(k, R)], s.live);
    hide Slot;
  }

  lemma FreeSlots(l: Log, k: nat, cbs: seq<nat>, descs: seq<Desc>, live: map<nat, seq<u8>>)
    requires k < RINGS && |cbs| == |descs| == TOTAL_DESC && |l.frees| < |l.frames| == |l.allocs|
    requires |l.frames| < |l.frees| + Size(k)
    requires Slots(l, k, cbs, descs, live) && Owned(cbs, live)
    ensures var p := Slot(k, |l.frees|);
            Slots(l.(frees := l.frees + [cbs[p]]), k, cbs[p := 0], descs, live - {cbs[p]})
  {
    var R := |l.frees|;
    var p := Slot(k, R);
    SlotLap(k, R);
    forall i | R < i < R + Size(k) ensures Slot(k, i) != p { SlotDistinct(k, R, i); }
    hide Slot;
    assert Holds(l, R, cbs[p], descs[p], live);
    forall i | R < i < |l.frames| ensures Holds(l, i, cbs[p := 0][Slot(k, i)], descs[Slot(k, i)], live - {cbs[p]}) {
      assert Holds(l, i, cbs[Slot(k, i)], descs[Slot(k, i)], live);
    }
  }

  lemma SettleKeeps(s: State)
    requires Inv(s) && Enabled(s, Settle)
    ensures Inv(SettleStep(s))
  {
    var s' := SettleStep(s);
    forall j | 0 <= j < RINGS ensures RingOk(s', j) {
      assert RingOk(s, j);
    }
  }

  lemma StepKeeps(s: State, e: Event)
    requires Inv(s) && Enabled(s, e)
    ensures Inv(Apply(s, e))
  {
    match e
    case Fill(queue, frame, addr, junk) =>
      if Room(s.rings[RingOf(queue)]) { FillKeeps(s, RingOf(queue), frame, addr, junk); }
    case Publish => PublishKeeps(s);
    case Transmit(k) => TransmitKeeps(s, k);
    case Look(k) => LookKeeps(s, k);
    case FreeOne => FreeKeeps(s);
    case Settle => SettleKeeps(s);
  }

  // ---------------------------------------------------------------- what the invariant says

  /** Between operations the index difference is the number of descriptors in use, and the pointers
      are the start plus the 16-bit indices modulo the size, which are the counts of all frames put in
      and all buffers given back. */
  lemma IndicesTell(s: State, k: nat)
    requires Inv(s) && k < RINGS && s.lock.Open?
    ensures var r, l := s.rings[k], s.logs[k];
            && r.prodIndex == |l.frames| % 65536 && r.cIndex == |l.frees| % 65536
            && (r.prodIndex - r.cIndex) % 65536 == r.size - r.freeBds == |l.frames| - |l.frees| < r.size
            && r.writePtr == Slot(k, r.prodIndex) == Slot(k, |l.frames|)
            && r.cleanPtr == Slot(k, r.cIndex) == Slot(k, |l.frees|)
  {
    assert RingOk(s, k);
    var l := s.logs[k];
    ReadyIs(|l.frames|, |l.frees|);
    MaskOnce(s.rings[k].prodIndex - s.rings[k].cIndex);
    SlotOfIndex(k, |l.frames|);
    SlotOfIndex(k, |l.frees|);
    hide Slot;
  }

  /** Both ring sizes divide 2^16, so the wrapped index leads to the same descriptor. */
  lemma SlotOfIndex(k: nat, n: nat)
    requires k < RINGS
    ensures Slot(k, n % INDICES) == Slot(k, n)
  {
    var i := n % INDICES;
    assert n == INDICES * (n / INDICES) + i;
    assert n == 32 * (2048 * (n / INDICES) + i / 32) + i % 32;
    assert n == 128 * (512 * (n / INDICES) + i / 128) + i % 128;
    Residue32(n, 2048 * (n / INDICES) + i / 32, i % 32);
    Residue128(n, 512 * (n / INDICES) + i / 128, i % 128);
  }

  lemma Residue32(n: nat, q: nat, r: nat)
    requires n == 32 * q + r && r < 32
    ensures n % 32 == r
  {
  }

  lemma Residue128(n: nat, q: nat, r: nat)
    requires n == 128 * q + r && r < 128
    ensures n % 128 == r
  {
  }

  lemma MaskOnce(x: int)
    requires 0 - INDICES < x < INDICES
    ensures x % U32 % INDICES == x % INDICES
  {
  }

  /** A control block of ring k has a buffer exactly when a frame sent through it was not reclaimed,
      and then it is that frame's buffer, with the frame in it. */
  lemma BufferIffInFlight(s: State, k: nat, p: nat)
    requires Inv(s) && k < RINGS && Start(k) <= p < Start(k) + Size(k)
    ensures var l := s.logs[k];
            s.cbs[p] != 0 <==> exists i :: |l.frees| <= i < |l.frames| && Slot(k, i) == p
    ensures var l := s.logs[k];
            forall i :: |l.frees| <= i < |l.frames| && Slot(k, i) == p ==>
                          i < |l.allocs| && s.cbs[p] == l.allocs[i] && s.cbs[p] in s.live && l.frames[i] <= s.live[s.cbs[p]]
  {
    assert RingOk(s, k);
    var l := s.logs[k];
    var i := IndexAt(k, p, |l.frees|);
    hide Slot, Counters;
    if i < |l.frames| { assert Holds(l, i, s.cbs[p], s.descs[p], s.live); }
    forall j | |l.frees| <= j < |l.frames| && Slot(k, j) == p ensures Holds(l, j, s.cbs[p], s.descs[p], s.live) { }
  }

  /** The one index of a lap that falls on descriptor p. */
  function IndexAt(k: nat, p: nat, from: nat): (i: nat)
    requires k < RINGS && Start(k) <= p < Start(k) + Size(k)
    ensures from <= i < from + Size(k) && Slot(k, i) == p
  {
    if k < TX_QUEUES then Index32(p - Start(k), from) else Index128(p - Start(k), from)
  }

  function Index32(o: nat, from: nat): (i: nat)
    requires o < 32
    ensures from <= i < from + 32 && i % 32 == o
  {
    assert from == 32 * (from / 32) + from % 32;
    if o >= from % 32 then 32 * (from / 32) + o else 32 * (from / 32 + 1) + o
  }

  function Index128(o: nat, from: nat): (i: nat)
    requires o < 128
    ensures from <= i < from + 128 && i % 128 == o
  {
    assert from == 128 * (from / 128) + from % 128;
    if o >= from % 128 then 128 * (from / 128) + o else 128 * (from / 128 + 1) + o
  }

  /** No step changes a buffer, its descriptor or its control block while the frame is in flight. */
  lemma InFlightStays(s: State, e: Event, k: nat, i: nat)
    requires Inv(s) && Enabled(s, e) && k < RINGS
    requires Inv(Apply(s, e)) && |Apply(s, e).logs[k].frees| <= i < |s.logs[k].frames|
    ensures var s', l, p := Apply(s, e), s.logs[k], Slot(k, i);
            && |l.frees| <= i && i < |l.allocs|
            && s'.cbs[p] == s.cbs[p] == l.allocs[i] && s'.descs[p] == s.descs[p]
            && l.allocs[i] in s.live && l.allocs[i] in s'.live
            && l.frames[i] <= s.live[l.allocs[i]] && l.frames[i] <= s'.live[l.allocs[i]]
  {
    var s', p := Apply(s, e), Slot(k, i);
    StepExtends(s, e, k);
    assert RingOk(s, k) && RingOk(s', k);
    hide Inv, Apply, Slot;
    assert Holds(s.logs[k], i, s.cbs[p], s.descs[p], s.live);
    assert Holds(s'.logs[k], i, s'.cbs[p], s'.descs[p], s'.live);
  }

  predicate Extends(l: Log, l': Log) {
    l.frames <= l'.frames && l.allocs <= l'.allocs && l.wire <= l'.wire && l.frees <= l'.frees
  }

  lemma StepExtends(s: State, e: Event, k: nat)
    requires Inv(s) && Enabled(s, e) && k < RINGS
    ensures |Apply(s, e).logs| == RINGS && Extends(s.logs[k], Apply(s, e).logs[k])
  {
  }

  /** No buffer is freed that is not allocated, and none stays allocated for ever by accident: what is
      allocated belongs to a frame still in flight. */
  lemma NoLeak(s: State, a: nat)
    requires Inv(s)
    ensures a in s.live <==> exists k, i :: 0 <= k < RINGS && |s.logs[k].frees| <= i < |s.logs[k].frames| && InFlight(s, k, i, a)
  {
    if a in s.live {
      var p :| 0 <= p < TOTAL_DESC && s.cbs[p] == a;
      RingsPartition(p);
      var k := RingHolding(p);
      BufferIffInFlight(s, k, p);
      var i :| |s.logs[k].frees| <= i < |s.logs[k].frames| && Slot(k, i) == p;
      assert InFlight(s, k, i, a);
    }
    forall k, i | 0 <= k < RINGS && |s.logs[k].frees| <= i < |s.logs[k].frames| && InFlight(s, k, i, a) ensures a in s.live {
      BufferIffInFlight(s, k, Slot(k, i));
    }
  }

  predicate InFlight(s: State, k: nat, i: nat, a: nat) {
    k < |s.logs| && i < |s.logs[k].allocs| && s.logs[k].allocs[i] == a
  }

  function RingHolding(p: nat): (k: nat)
    requires p < TOTAL_DESC
    ensures k < RINGS && Start(k) <= p < Start(k) + Size(k)
  {
    if p < TX_QUEUES * TX_BDS_PER_Q then p / TX_BDS_PER_Q else TX_QUEUES
  }

  // ---------------------------------------------------------------- every run

  ghost predicate CanRun(s: State, events: seq<Event>)
    requires Inv(s)
    decreases |events|
  {
    events == [] ||
    (Enabled(s, events[0]) && (StepKeeps(s, events[0]); CanRun(Apply(s, events[0]), events[1..])))
  }

  ghost function Run(s: State, events: seq<Event>): State
    requires Inv(s) && CanRun(s, events)
    decreases |events|
  {
    if events == [] then s
    else
      StepKeeps(s, events[0]);
      Run(Apply(s, events[0]), events[1..])
  }

  /** A run is its steps one after another: one step more is one step from where the run has led. */
  lemma {:induction false} RunGoesOn(s: State, events: seq<Event>, e: Event)
    requires Inv(s) && CanRun(s, events) && Inv(Run(s, events))
    ensures CanRun(s, events + [e]) <==> Enabled(Run(s, events), e)
    ensures CanRun(s, events + [e]) ==> Run(s, events + [e]) == Apply(Run(s, events), e)
    decreases |events|
  {
    hide Inv, Apply, Enabled;
    if events == [] {
      assert events + [e] == [e] && [e][1..] == [];
    } else {
      assert (events + [e])[0] == events[0] && (events + [e])[1..] == events[1..] + [e];
      StepKeeps(s, events[0]);
      RunGoesOn(Apply(s, events[0]), events[1..], e);
    }
  }

  /** In every run each ring sends the accepted frames, padded, in order and once each, and gives their
      buffers back in the same order, each once and only after its frame went out. */
  lemma {:induction false} RunIsOrderly(s: State, events: seq<Event>, k: nat)
    requires Inv(s) && CanRun(s, events) && k < RINGS
    ensures var s' := Run(s, events);
            && Inv(s') && Extends(s.logs[k], s'.logs[k])
            && var l := s'.logs[k];
               && |l.frees| <= |l.wire| <= |l.frames| == |l.allocs|
               && l.wire == l.frames[..|l.wire|] && l.frees == l.allocs[..|l.frees|]
    decreases |events|
  {
    if events == [] {
      assert RingOk(s, k);
    } else {
      StepKeeps(s, events[0]);
      StepExtends(s, events[0], k);
      hide Inv, Apply, Enabled;
      RunIsOrderly(Apply(s, events[0]), events[1..], k);
    }
  }

  // ---------------------------------------------------------------- whole operations

  /** SendFrame: without room the frame is dropped and nothing changes. */
  ghost function Send(s: State, queue: nat, frame: seq<u8>, addr: nat, junk: seq<u8>): State
    requires Inv(s) && Enabled(s, Fill(queue, frame, addr, junk))
  {
    var k := RingOf(queue);
    if !Room(s.rings[k]) then s
    else
      FillKeeps(s, k, frame, addr, junk);
      PublishStep(FillStep(s, k, frame, addr, junk))
  }

  /** `n` turns of tx_reclaim's loop. */
  ghost function FreeMany(s: State, n: nat): (s': State)
    requires Inv(s) && s.lock.Reclaiming? && s.lock.processed + n <= s.lock.ready
    ensures Inv(s') && s'.lock == s.lock.(processed := s.lock.processed + n)
  {
    if n == 0 then s
    else
      var m := FreeMany(s, n - 1);
      FreeKeeps(m);
      FreeStep(m)
  }

  ghost function Reclaim(s: State, k: nat): State
    requires Inv(s) && Enabled(s, Look(k))
  {
    LookKeeps(s, k);
    SettleStep(FreeMany(LookStep(s, k), LookStep(s, k).lock.ready))
  }

  lemma SendMeans(s: State, queue: nat, frame: seq<u8>, addr: nat, junk: seq<u8>)
    requires Inv(s) && Enabled(s, Fill(queue, frame, addr, junk)) && Room(s.rings[RingOf(queue)])
    ensures var s', k := Send(s, queue, frame, addr, junk), RingOf(queue);
            && Inv(s') && s'.lock.Open?
            && s'.logs == s.logs[k := s.logs[k].(frames := s.logs[k].frames + [Padded(frame)], allocs := s.logs[k].allocs + [addr])]
            && s'.live.Keys == s.live.Keys + {addr}
            && s'.rings[k].freeBds == s.rings[k].freeBds - 1
  {
    var k := RingOf(queue);
    FillKeeps(s, k, frame, addr, junk);
    PublishKeeps(FillStep(s, k, frame, addr, junk));
  }

  /** The descriptors of a queue: 0 has the upper half of the table, 1 to 4 have 32 each from the start. */
  predicate OfQueue(queue: nat, p: nat) {
    if queue == 0 then 128 <= p < 256 else 32 * (queue - 1) <= p < 32 * queue
  }

  /** The frame takes one descriptor and control block of its queue; nothing else in the table changes. */
  ghost predicate TakesOne(s: State, s': State, queue: nat, frame: seq<u8>, addr: nat) {
    && |s.cbs| == |s.descs| == |s'.cbs| == |s'.descs| == 256
    && addr in s'.live && |s'.live[addr]| == 1536 && frame <= s'.live[addr]
    && exists p :: 0 <= p < 256 && OfQueue(queue, p) && s.cbs[p] == 0 != addr
                   && s'.cbs == s.cbs[p := addr]
                   && s'.descs == s.descs[p := Desc(addr, if |frame| < 60 then 60 else |frame|)]
  }

  lemma QueueDescriptors(s: State, queue: nat, frame: seq<u8>, addr: nat, junk: seq<u8>)
    requires Inv(s) && Enabled(s, Fill(queue, frame, addr, junk)) && Room(s.rings[RingOf(queue)])
    ensures TakesOne(s, Send(s, queue, frame, addr, junk), queue, frame, addr)
  {
    var k := RingOf(queue);
    FillKeeps(s, k, frame, addr, junk);
    FillRing(s, k, frame, addr, junk);
    assert RingOk(s, k);
    hide Inv, RingOk, Slots, Holds, Histories;
    assert OfQueue(queue, s.rings[k].writePtr);
  }

  /** SendFrame is its two steps in the state machine, or the one that drops the frame. */
  lemma SendIsSteps(s: State, queue: nat, frame: seq<u8>, addr: nat, junk: seq<u8>)
    requires Inv(s) && Enabled(s, Fill(queue, frame, addr, junk))
    ensures var s1, s' := Apply(s, Fill(queue, frame, addr, junk)), Send(s, queue, frame, addr, junk);
            if s.rings[RingOf(queue)].freeBds < 2 then s1 == s' == s
            else Inv(s1) && Enabled(s1, Publish) && Apply(s1, Publish) == s'
  {
    if Room(s.rings[RingOf(queue)]) { FillKeeps(s, RingOf(queue), frame, addr, junk); }
    hide Inv;
  }

  /** Different queues have different rings, and every ring has its queue. */
  lemma QueuesAndRings(q1: nat, q2: nat, k: nat)
    requires q1 <= 4 && q2 <= 4 && k < RINGS
    ensures RingOf(q1) == RingOf(q2) <==> q1 == q2
    ensures exists q: nat :: q <= 4 && RingOf(q) == k
  {
    assert RingOf(if k == 4 then 0 else k + 1) == k;
  }

  /** All that a part of tx_reclaim's loop may change. */
  predicate OnlyFrees(s: State, s': State, k: nat, n: nat)
    requires Shape(s) && Shape(s') && k < RINGS
  {
    && |s'.logs[k].frees| == |s.logs[k].frees| + n
    && s'.logs == s.logs[k := s.logs[k].(frees := s'.logs[k].frees)]
    && s'.ports == s.ports
    && s'.rings == s.rings[k := s.rings[k].(cleanPtr := s'.rings[k].cleanPtr)]
  }

  lemma FreeStepOnlyFrees(s: State)
    requires Inv(s) && Enabled(s, FreeOne)
    ensures Shape(FreeStep(s)) && OnlyFrees(s, FreeStep(s), s.lock.k, 1)
  {
    FreeKeeps(s);
    hide Inv;
  }

  lemma {:induction false} FreeManyMeans(s: State, n: nat)
    requires Inv(s) && s.lock.Reclaiming? && s.lock.processed + n <= s.lock.ready
    ensures Shape(FreeMany(s, n)) && OnlyFrees(s, FreeMany(s, n), s.lock.k, n)
  {
    hide Inv, FreeStep, OnlyFrees;
    WellFormed(s);
    if n == 0 {
      OnlyFreesNone(s, s.lock.k);
    } else {
      FreeManyMeans(s, n - 1);
      var m := FreeMany(s, n - 1);
      WellFormed(m);
      FreeStepOnlyFrees(m);
      OnlyFreesAgain(s, m, FreeStep(m), s.lock.k, n - 1);
    }
  }

  lemma WellFormed(s: State)
    requires Inv(s)
    ensures Shape(s) && (s.lock.Open? || s.lock.k < RINGS)
  {
  }

  lemma OnlyFreesNone(s: State, k: nat)
    requires Shape(s) && k < RINGS
    ensures OnlyFrees(s, s, k, 0)
  {
  }

  lemma OnlyFreesAgain(s: State, m: State, s': State, k: nat, n: nat)
    requires Shape(s) && Shape(m) && Shape(s') && k < RINGS && OnlyFrees(s, m, k, n) && OnlyFrees(m, s', k, 1)
    ensures OnlyFrees(s, s', k, n + 1)
  {
  }

  /** tx_reclaim gives back the buffers of exactly the frames sent when it looked, whatever the
      two 16-bit indices have wrapped to, and touches no other ring. */
  lemma ReclaimMeans(s: State, k: nat)
    requires Inv(s) && Enabled(s, Look(k))
    ensures var s', l := Reclaim(s, k), s.logs[k];
            && Inv(s') && s'.lock.Open? && s'.ports == s.ports
            && |l.wire| <= |l.allocs|
            && s'.logs == s.logs[k := l.(frees := l.allocs[..|l.wire|])]
            && s'.rings[k].freeBds == s.rings[k].size - (|l.frames| - |l.wire|)
            && s'.rings[k].cIndex == s.ports[k].cons
            && forall j :: 0 <= j < RINGS && j != k ==> s'.rings[j] == s.rings[j]
  {
    LookKeeps(s, k);
    var s1 := LookStep(s, k);
    var n := s1.lock.ready;
    FreeManyMeans(s1, n);
    var s2 := FreeMany(s1, n);
    SettleKeeps(s2);
    var s' := SettleStep(s2);
    Counted(s, k);
    Counted(s', k);
    hide Inv, FreeMany;
  }

  lemma Counted(s: State, k: nat)
    requires Inv(s) && k < RINGS && s.lock.Open?
    ensures var r, l := s.rings[k], s.logs[k];
            && |l.frees| <= |l.wire| <= |l.frames| == |l.allocs| && l.frees == l.allocs[..|l.frees|]
            && r.freeBds == r.size - (|l.frames| - |l.frees|)
  {
    assert RingOk(s, k);
    hide Slots, Owned, Slot;
  }

  /** tx_reclaim is a run of the state machine: its look, one turn for each frame that is ready, its end. */
  lemma ReclaimIsRun(s: State, k: nat)
    requires Inv(s) && Enabled(s, Look(k))
    ensures Inv(LookStep(s, k))
    ensures var events := [Look(k)] + Repeat(FreeOne, LookStep(s, k).lock.ready) + [Settle];
            CanRun(s, events) && Run(s, events) == Reclaim(s, k)
  {
    LookKeeps(s, k);
    var s1 := LookStep(s, k);
    var n := s1.lock.ready;
    var events := [Look(k)] + Repeat(FreeOne, n) + [Settle];
    assert events[0] == Look(k) && events[1..] == Repeat(FreeOne, n) + [Settle];
    FreeRun(s1, n, n);
    hide Inv, LookStep, SettleStep, FreeMany;
    assert CanRun(s, events) && Run(s, events) == Run(s1, events[1..]);
  }

  lemma {:induction false} FreeRun(s: State, n: nat, m: nat)
    requires Inv(s) && s.lock.Reclaiming? && m <= n && s.lock.processed == 0 && n == s.lock.ready
    ensures var s1 := FreeMany(s, n - m);
            var events := Repeat(FreeOne, m) + [Settle];
            CanRun(s1, events) && Run(s1, events) == SettleStep(FreeMany(s, n))
    decreases m
  {
    hide Inv, FreeStep, SettleStep, FreeMany;
    var s1 := FreeMany(s, n - m);
    var events := Repeat(FreeOne, m) + [Settle];
    WellFormed(s1);
    WellFormed(FreeMany(s, n));
    if m == 0 {
      assert events == [Settle];
      JustSettle(s1);
    } else {
      assert events == [FreeOne] + (Repeat(FreeOne, m - 1) + [Settle]);
      NextOf(s, n - m);
      FreeRun(s, n, m - 1);
      FreeFirst(s1, Repeat(FreeOne, m - 1) + [Settle]);
    }
  }

  lemma NextOf(s: State, n: nat)
    requires Inv(s) && s.lock.Reclaiming? && s.lock.processed + n + 1 <= s.lock.ready
    ensures Shape(FreeMany(s, n)) && Enabled(FreeMany(s, n), FreeOne) && FreeMany(s, n + 1) == FreeStep(FreeMany(s, n))
  {
    WellFormed(FreeMany(s, n));
    hide Inv, FreeStep;
  }

  lemma JustSettle(s: State)
    requires Inv(s) && Enabled(s, Settle)
    ensures CanRun(s, [Settle]) && Run(s, [Settle]) == SettleStep(s)
  {
    SettleKeeps(s);
    assert [Settle][1..] == [];
    hide Inv, SettleStep;
  }

  lemma FreeFirst(s: State, events: seq<Event>)
    requires Inv(s) && Enabled(s, FreeOne) && Inv(FreeStep(s)) && CanRun(FreeStep(s), events)
    ensures CanRun(s, [FreeOne] + events) && Run(s, [FreeOne] + events) == Run(FreeStep(s), events)
  {
    assert ([FreeOne] + events)[1..] == events;
    hide Inv, FreeStep;
  }
}
