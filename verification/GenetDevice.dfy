/** CBcm54213Device's transmit side in place: ring records, registers and control blocks updated step
    by step, as the steps of GenetTx say. */
module GenetDevice {
  import opened Basics
  import opened GenetTx

  class CBcm54213Device {
    const txRings: array<TxRing>
    const registers: array<Port>
    const txCbs: array<nat>
    const descs: array<Desc>
    var live: map<nat, seq<u8>>
    ghost var logs: seq<Log>
    ghost var lock: Lock

    ghost predicate Sized() {
      && txRings.Length == registers.Length == RINGS
      && txCbs.Length == descs.Length == TOTAL_DESC
    }

    ghost function View(): State
      reads this, txRings, registers, txCbs, descs
    {
      State(txRings[..], registers[..], logs, txCbs[..], descs[..], live, lock)
    }

    ghost predicate Valid()
      reads this, txRings, registers, txCbs, descs
    {
      Sized() && Inv(View())
    }

    constructor ()
      ensures Valid() && View() == Initial()
      ensures fresh(txRings) && fresh(registers) && fresh(txCbs) && fresh(descs)
    {
      txRings := new TxRing[RINGS](_ => InitRing(0, 0, 1));
      registers := new Port[RINGS](_ => Port(0, 0, 0));
      txCbs := new nat[TOTAL_DESC](_ => 0);
      descs := new Desc[TOTAL_DESC](_ => Desc(0, 0));
      live := map[];
      logs := seq(RINGS, _ => Log([], [], [], []));
      lock := Open;
      new;
      InitTxQueues();
      InitialInv();
      assert View() == Initial();
    }

    method InitTxRing(index: nat, size: nat, startPtr: nat, endPtr: nat)
      requires Sized() && index < RINGS && startPtr < endPtr
      modifies txRings, registers
      ensures txRings[..] == old(txRings[..])[index := InitRing(size, startPtr, endPtr)]
      ensures registers[..] == old(registers[..])[index := Port(0, 0, startPtr)]
    {
      txRings[index] := TxRing(size, startPtr, endPtr - 1, startPtr, 0, size, startPtr, 0);
      registers[index] := Port(0, 0, startPtr);
    }

    method InitTxQueues()
      requires Sized()
      modifies txRings, registers
      ensures txRings[..] == Initial().rings && registers[..] == Initial().ports
    {
      var i := 0;
      while i < TX_QUEUES
        invariant i <= TX_QUEUES
        invariant forall k :: 0 <= k < i ==> txRings[k] == InitialRing(k) && registers[k] == Port(0, 0, Start(k))
      {
        InitTxRing(i, TX_BDS_PER_Q, i * TX_BDS_PER_Q, (i + 1) * TX_BDS_PER_Q);
        i := i + 1;
      }
      InitTxRing(TX_QUEUES, GENET_Q16_TX_BD_CNT, TX_QUEUES * TX_BDS_PER_Q, TOTAL_DESC);
    }

    /** The next control block of a ring. */
    method GetTxCb(k: nat) returns (p: nat)
      requires Sized() && k < RINGS
      modifies txRings
      ensures p == old(txRings[k].writePtr)
      ensures txRings[..] == old(txRings[..])[k := old(txRings[k]).(writePtr := NextPtr(old(txRings[k]), p))]
    {
      var r := txRings[k];
      p := r.writePtr;
      if r.writePtr == r.endPtr {
        txRings[k] := r.(writePtr := r.cbPtr);
      } else {
        txRings[k] := r.(writePtr := r.writePtr + 1);
      }
    }

    /** The frame copied to a new buffer and padded with zeros. */
    method PadFrame(frame: seq<u8>, junk: seq<u8>) returns (txBuffer: seq<u8>, length: nat)
      requires |frame| <= ENET_MAX_MTU_SIZE == |junk|
      ensures txBuffer == Buffer(frame, junk) && length == |Padded(frame)|
    {
      txBuffer := frame + junk[|frame|..];
      length := |frame|;
      if length < ETH_ZLEN {
        ghost var was := txBuffer;
        txBuffer := txBuffer[..length] + Repeat<u8>(0, ETH_ZLEN - length) + txBuffer[ETH_ZLEN..];
        assert was[..length] == frame && was[ETH_ZLEN..] == junk[ETH_ZLEN..];
        length := ETH_ZLEN;
      }
    }

    /** The first part of SendFrame: `addr` is where `new` put the buffer, `junk` what it found there. */
    method FillNext(k: nat, frame: seq<u8>, addr: nat, junk: seq<u8>)
      requires Sized() && Shape(View()) && k < RINGS && |frame| <= ENET_MAX_MTU_SIZE == |junk|
      modifies this, txRings, txCbs, descs
      ensures View() == FillStep(old(View()), k, frame, addr, junk)
    {
      assert InTable(txRings[k], registers[k]) by { assert InTable(View().rings[k], View().ports[k]); }
      hide Padded, Buffer;
      var txBuffer, length := PadFrame(frame, junk);
      var p := GetTxCb(k);
      live := live[addr := txBuffer];
      txCbs[p] := addr;
      descs[p] := Desc(addr, length);
      logs := logs[k := logs[k].(frames := logs[k].frames + [Padded(frame)], allocs := logs[k].allocs + [addr])];
      lock := Filled(k);
    }

    method PublishIt(k: nat)
      requires Sized() && Shape(View()) && lock == Filled(k) && k < RINGS
      modifies this, txRings, registers
      ensures View() == PublishStep(old(View()))
    {
      var r := txRings[k];
      r := r.(freeBds := r.freeBds - 1);
      r := r.(prodIndex := r.prodIndex + 1);
      r := r.(prodIndex := r.prodIndex % INDICES);
      txRings[k] := r;
      registers[k] := registers[k].(prod := r.prodIndex);
      lock := Open;
    }

    method SendFrame(queue: nat, frame: seq<u8>, addr: nat, junk: seq<u8>) returns (sent: bool)
      requires Valid() && Enabled(View(), Fill(queue, frame, addr, junk))
      modifies this, txRings, registers, txCbs, descs
      ensures Valid()
      ensures View() == Send(old(View()), queue, frame, addr, junk)
      ensures sent <==> old(View()).rings[RingOf(queue)].freeBds >= 2
      ensures sent ==> TakesOne(old(View()), View(), queue, frame, addr)
    {
      ghost var s := View();
      var k := RingOf(queue);
      if txRings[k].freeBds < 2 { return false; }
      FillKeeps(s, k, frame, addr, junk);
      FillIsFilled(s, k, frame, addr, junk);
      PublishKeeps(FillStep(s, k, frame, addr, junk));
      QueueDescriptors(s, queue, frame, addr, junk);
      hide Inv, FillStep, PublishStep, TakesOne;
      FillNext(k, frame, addr, junk);
      PublishIt(k);
      return true;
    }

    /** The hardware, whenever its indices differ. */
    method HardwareTransmit(k: nat)
      requires Valid() && Enabled(View(), Transmit(k))
      modifies this`logs, registers
      ensures Valid() && View() == TransmitStep(old(View()), k)
    {
      ghost var s := View();
      TransmitKeeps(s, k);
      logs := TransmitStep(s, k).logs;
      var h := registers[k];
      registers[k] := h.(cons := (h.cons + 1) % INDICES, read := NextPtr(txRings[k], h.read));
      hide Inv;
      assert View() == TransmitStep(s, k);
    }

    method FreeTxCb(p: nat)
      requires Sized() && p < TOTAL_DESC
      modifies this`live, txCbs
      ensures txCbs[..] == old(txCbs[..])[p := 0]
      ensures live == if old(txCbs[p]) == 0 then old(live) else old(live) - {old(txCbs[p])}
    {
      var buffer := txCbs[p];
      if buffer != 0 {
        txCbs[p] := 0;
        live := live - {buffer};
      }
    }

    /** One turn of tx_reclaim's loop. */
    method FreeNext(k: nat)
      requires Sized() && Shape(View()) && lock.Reclaiming? && lock.k == k && Enabled(View(), FreeOne)
      requires txCbs[..][txRings[..][k].cleanPtr] != 0
      modifies this, txRings, txCbs
      ensures View() == FreeStep(old(View()))
    {
      assert InTable(txRings[k], registers[k]) by { assert InTable(View().rings[k], View().ports[k]); }
      ghost var buffer := txCbs[txRings[k].cleanPtr];
      FreeTxCb(txRings[k].cleanPtr);
      var r := txRings[k];
      if r.cleanPtr < r.endPtr {
        txRings[k] := r.(cleanPtr := r.cleanPtr + 1);
      } else {
        txRings[k] := r.(cleanPtr := r.cbPtr);
      }
      logs := logs[k := logs[k].(frees := logs[k].frees + [buffer])];
      lock := lock.(processed := lock.processed + 1);
    }

    /** The loop over the descriptors that are ready. */
    method FreeReady(k: nat, ready: nat) returns (processed: nat)
      requires Valid() && View().lock.Reclaiming? && lock.k == k && lock.processed == 0 && lock.ready == ready
      modifies this, txRings, txCbs
      ensures Valid() && View() == FreeMany(old(View()), ready) && processed == ready
    {
      hide Inv, FreeStep;
      ghost var looked := View();
      processed := 0;
      while processed < ready
        invariant processed <= ready && View() == FreeMany(looked, processed)
      {
        ghost var m := View();
        WellFormed(m);
        FreeKeeps(m);
        BufferThere(m);
        FreeNext(k);
        processed := processed + 1;
      }
    }

    method TxReclaim(k: nat) returns (processed: nat)
      requires Valid() && Enabled(View(), Look(k))
      modifies this, txRings, txCbs
      ensures Valid() && View() == Reclaim(old(View()), k)
      ensures processed == |old(View()).logs[k].wire| - |old(View()).logs[k].frees|
    {
      hide Inv, FreeStep;
      ghost var s := View();
      WellFormed(s);
      LookKeeps(s, k);
      var cIndex := registers[k].cons;
      var ready := (cIndex - txRings[k].cIndex) % U32 % INDICES;
      lock := Reclaiming(k, cIndex, ready, 0);
      assert View() == LookStep(s, k);
      processed := FreeReady(k, ready);
      SettleKeeps(View());
      WellFormed(View());
      txRings[k] := txRings[k].(freeBds := txRings[k].freeBds + processed, cIndex := cIndex);
      lock := Open;
      assert View() == Reclaim(s, k);
    }
  }

  lemma FillIsFilled(s: State, k: nat, frame: seq<u8>, addr: nat, junk: seq<u8>)
    requires Shape(s) && k < RINGS && |frame| <= ENET_MAX_MTU_SIZE == |junk| && Inv(FillStep(s, k, frame, addr, junk))
    ensures FillStep(s, k, frame, addr, junk).lock == Filled(k) && Shape(FillStep(s, k, frame, addr, junk))
  {
  }

  /** tx_reclaim never meets a control block without a buffer. */
  lemma BufferThere(s: State)
    requires Inv(s) && Enabled(s, FreeOne)
    ensures s.cbs[s.rings[s.lock.k].cleanPtr] != 0
  {
    FreeKeeps(s);
  }
}
