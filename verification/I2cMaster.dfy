/** CI2CMaster::Transfer in place: polling loop, FIFO loops and stop detection, against any behaviour
    of the bus between any two register accesses. */
module I2cMaster {
  import opened Basics
  import opened I2cBus

  const I2C_MASTER_ERROR_NACK := 2
  const I2C_MASTER_TIMEOUT := 5
  const I2C_MASTER_BUS_BUSY := 6

  /** The enabled interrupt bits read_clear_intrbits returns. */
  datatype Stat = Stat(abort: bool, rxFull: bool, txEmpty: bool, stop: bool)

  function IntrStat(h: Hw): Stat {
    Stat(h.abortBit, h.rx != [], h.emptyOn && |h.tx| <= TX_THRESHOLD, h.stop)
  }

  class CI2CMaster {
    var read: bool
    var buffer: array<u8>
    var rxPtr: nat          // offsets of m_pRXBufferPtr and m_pTXBufferPtr
    var txPtr: nat
    var rxBufferLen: nat
    var rxOutstanding: nat
    var txBufferLen: nat
    var result: int
    var hw: Hw
    const bus: Bus
    var accesses: nat                   // the register accesses so far
    ghost var data: seq<u8>             // the caller's buffer at the start
    ghost var turnStart: Hw             // the controller when the last turn of the polling loop started

    ghost function View(): Job
      reads this, buffer
    {
      Job(read, data, buffer[..], rxBufferLen, txBufferLen, rxOutstanding)
    }

    /** What holds at every register access of a transfer. */
    ghost predicate Linked()
      reads this, buffer
    {
      && Link(View(), hw) && result == 0
      && rxPtr == |data| - rxBufferLen
      && txPtr == (if read then 0 else |data| - txBufferLen)
    }

    ghost predicate Valid()
      reads this, buffer
    {
      Linked() && MaskOk(View(), hw)
    }

    /** No byte is late, and the bus will not let one be late. */
    ghost predicate Timely()
      reads this
    {
      hw.late == [] && AlwaysPrompt(bus)
    }

    constructor (bus: Bus)
      ensures this.bus == bus
    {
      read, rxPtr, txPtr, rxBufferLen, rxOutstanding, txBufferLen, result := false, 0, 0, 0, 0, 0, 0;
      buffer := new u8[0];
      hw := Hw([], None, [], [], false, false, false, false, false, [], 0, [], false);
      this.bus, accesses := bus, 0;
      data := [];
      turnStart := Hw([], None, [], [], false, false, false, false, false, [], 0, [], false);
    }

    /** The bus goes on until the next register access. */
    method Elapse()
      requires Linked()
      modifies this`hw, this`accesses
      ensures Linked() && Later(old(hw), hw)
      ensures Standing(Words(data), old(hw), hw) && Went(bus, old(hw), old(accesses), hw, accesses)
      ensures accesses == old(accesses) + 1
    {
      hide Link, StopKept, Lost, Standing, Later, Went;
      HappensKeeps(View(), hw, bus(accesses));
      WentBy(View(), bus, hw, accesses);
      hw := Happens(hw, bus(accesses));
      accesses := accesses + 1;
    }

    /** The bits are those of one moment, when the controller is in the state `seen`. A STOP_DET is
        cleared only when nothing is outstanding or RX_FULL is seen with it; otherwise it stays. */
    method ReadClearIntrBits() returns (stat: Stat, ghost seen: Hw)
      requires Valid() && (StopKept(Words(data), hw) || Lost(Words(data), hw))
      modifies this`hw, this`accesses
      ensures Valid() && Went(bus, old(hw), old(accesses), seen, old(accesses) + 1)
      ensures Went(bus, seen, old(accesses) + 1, hw, accesses)
      ensures Later(old(hw), seen) && Standing(Words(data), old(hw), seen) && stat == IntrStat(seen)
      ensures stat.abort ==> hw.abort && !hw.faulty
      ensures !stat.abort ==> AfterLook(Words(data), rxOutstanding, seen, hw)
    {
      hide Link, Commands, StopKept, Lost, Went;
      Elapse();
      stat, seen := IntrStat(hw), hw;
      WentSelf(bus, hw, accesses);
      SeenTogether(View(), hw);
      if stat.abort { ClearAbort(); }
      ghost var h1, i1 := hw, accesses;
      if stat.stop && (rxOutstanding == 0 || stat.rxFull) {
        ClearStop();
        WentOn(bus, seen, old(accesses) + 1, h1, i1, hw, accesses);
      }
    }

    method ClearAbort()
      requires Valid() && hw.abort
      modifies this`hw, this`accesses
      ensures Valid() && hw.abort && !hw.faulty && Went(bus, old(hw), old(accesses), hw, accesses)
    {
      hide Link, Commands, Went;
      Elapse();
      ClearKeeps(View(), hw);
      NoFault(View(), hw);
      WentTouched(bus, old(hw), old(accesses), hw, accesses, hw.(abortBit := false));
      hw := hw.(abortBit := false);
    }

    method ClearStop()
      requires Valid()
      modifies this`hw, this`accesses
      ensures Valid() && Later(old(hw).(stop := false), hw) && !hw.faulty && Went(bus, old(hw), old(accesses), hw, accesses)
      ensures Idle(old(hw)) ==> hw == old(hw).(stop := false, rx := hw.rx, late := hw.late)
    {
      hide Link, Commands, Went;
      NoFault(View(), hw);
      Elapse();
      ClearKeeps(View(), hw);
      NoFault(View(), hw);
      WentTouched(bus, old(hw), old(accesses), hw, accesses, hw.(stop := false));
      hw := hw.(stop := false);
    }

    method FetchByte()
      requires Valid() && read && hw.rx != [] && rxBufferLen > 0
      modifies this`hw, this`accesses, this`rxPtr, this`rxBufferLen, this`rxOutstanding, buffer
      ensures Standing(Words(data), old(hw), hw) && Went(bus, old(hw), old(accesses), hw, accesses)
      ensures Valid() && Goes(old(hw), hw) && |hw.rx| >= |old(hw).rx| - 1
      ensures rxBufferLen == old(rxBufferLen) - 1 && rxOutstanding == old(rxOutstanding) - 1
    {
      hide Link, Commands, Went, Touched;
      Elapse();
      GetKeeps(View(), hw);
      GetTouches(hw);
      var (byte, next) := Get(hw);
      WentTouched(bus, old(hw), old(accesses), hw, accesses, next);
      hw := next;
      assert rxPtr < buffer.Length;
      buffer[rxPtr] := byte;
      rxPtr := rxPtr + 1;
      rxBufferLen := rxBufferLen - 1;
      rxOutstanding := rxOutstanding - 1;
    }

    /** Fetch what is in the receive FIFO when its level is read, which is in the state `level`. */
    method ReadFifo() returns (ghost level: Hw)
      requires Valid()
      modifies this`hw, this`accesses, this`rxPtr, this`rxBufferLen, this`rxOutstanding, buffer
      ensures Standing(Words(data), old(hw), hw) && Went(bus, old(hw), old(accesses), hw, accesses)
      ensures old(Timely()) ==> level.late == []
      ensures Valid() && Later(old(hw), level) && Goes(old(hw), hw)
      ensures rxOutstanding == old(rxOutstanding) - |level.rx|
    {
      hide Link, Commands, Went;
      if !read {
        RxFits(View(), hw);
        WentSelf(bus, hw, accesses);
        return hw;
      }
      Elapse();
      level := hw;
      ghost var i1 := accesses;
      WentTimely(bus, old(hw), old(accesses), level, i1);
      RxFits(View(), hw);
      FetchBytes(|hw.rx|);
      WentOn(bus, old(hw), old(accesses), level, i1, hw, accesses);
    }

    method FetchBytes(count: nat)
      requires Valid() && read && count <= |hw.rx| && count <= rxBufferLen
      modifies this`hw, this`accesses, this`rxPtr, this`rxBufferLen, this`rxOutstanding, buffer
      ensures Standing(Words(data), old(hw), hw) && Went(bus, old(hw), old(accesses), hw, accesses)
      ensures Valid() && Goes(old(hw), hw)
      ensures rxOutstanding == old(rxOutstanding) - count
    {
      hide Link, Commands, Went;
      WentSelf(bus, hw, accesses);
      var rxValid := count;
      while rxBufferLen > 0 && rxValid > 0
        invariant Valid() && rxValid <= |hw.rx| && rxValid <= rxBufferLen
        invariant Goes(old(hw), hw) && Standing(Words(data), old(hw), hw) && Went(bus, old(hw), old(accesses), hw, accesses)
        invariant 0 <= rxValid <= count && rxOutstanding == old(rxOutstanding) - (count - rxValid)
        decreases rxBufferLen
      {
        ghost var h1, i1 := hw, accesses;
        FetchByte();
        WentOn(bus, old(hw), old(accesses), h1, i1, hw, accesses);
        rxValid := rxValid - 1;
      }
    }

    /** Write the transfer's next word. */
    method WriteWord()
      requires Linked() && txBufferLen > 0 && (hw.abort || |hw.tx| < FIFO_SIZE) && (read ==> rxOutstanding < FIFO_SIZE)
      modifies this`hw, this`accesses, this`txPtr, this`txBufferLen, this`rxOutstanding
      ensures Linked() && txBufferLen == old(txBufferLen) - 1
      ensures |hw.tx| <= |old(hw).tx| + 1 && (old(hw).abort ==> hw.abort) && data != []
      ensures Standing(Words(data), old(hw), hw) && Went(bus, old(hw), old(accesses), hw, accesses)
      ensures rxOutstanding == old(rxOutstanding) + Count(read)
    {
      hide Link, Commands, Went, Touched, Put;
      Elapse();
      ghost var h1 := hw;
      ghost var c := PutNext();
      PutTouches(h1, c);
      PutStands(Words(data), h1, c);
      WentTouched(bus, old(hw), old(accesses), h1, accesses, hw);
    }

    /** The write to DATA_CMD. */
    method PutNext() returns (ghost c: Cmd)
      requires Linked() && txBufferLen > 0 && (hw.abort || |hw.tx| < FIFO_SIZE) && (read ==> rxOutstanding < FIFO_SIZE)
      modifies this`hw, this`txPtr, this`txBufferLen, this`rxOutstanding
      ensures Linked() && txBufferLen == old(txBufferLen) - 1 && rxOutstanding == old(rxOutstanding) + Count(read)
      ensures hw == Put(old(hw), c) && data != [] && (old(hw).abort || old(hw).done < Words(data))
    {
      hide Link, Commands, Put;
      PutKeeps(View(), hw);
      if read {
        c := Cmd(true, txBufferLen == 1, 0);
        hw := Put(hw, Cmd(true, txBufferLen == 1, 0));
        rxOutstanding := rxOutstanding + 1;
      } else {
        c := Cmd(false, txBufferLen == 1, buffer[txPtr]);
        hw := Put(hw, Cmd(false, txBufferLen == 1, buffer[txPtr]));
        txPtr := txPtr + 1;
      }
      txBufferLen := txBufferLen - 1;
    }

    /** Fill the transmit FIFO as far as both FIFOs allow, and stop asking for more after the last
        word. */
    method XferMsg()
      requires Valid() && hw.emptyOn
      modifies this`hw, this`accesses, this`txPtr, this`txBufferLen, this`rxOutstanding
      ensures Valid()
      ensures Standing(Words(data), old(hw), hw) && Went(bus, old(hw), old(accesses), hw, accesses)
      ensures Filled(Words(data), read, old(hw), rxOutstanding, hw, FIFO_SIZE - |old(hw).tx|)
      ensures |hw.sent| == |old(hw).sent| ==> rxOutstanding == old(rxOutstanding)
    {
      hide Link, Commands, StopKept, Lost, Goes, MaskOk, Went;
      EmptyFits(View(), hw);
      SentIs(View(), hw);
      var txLimit, rxLimit := FifoRoom();
      ghost var h1, i1 := hw, accesses;
      if txBufferLen == 0 { QuickCommand(); } else { WentSelf(bus, hw, accesses); }
      ghost var h2, i2 := hw, accesses;
      WentOn(bus, old(hw), old(accesses), h1, i1, h2, i2);
      WriteWords(txLimit, rxLimit);
      WentOn(bus, old(hw), old(accesses), h2, i2, hw, accesses);
      ghost var h3, i3 := hw, accesses;
      SetMask();
      SentIs(View(), hw);
      WentOn(bus, old(hw), old(accesses), h3, i3, hw, accesses);
    }

    /** What both FIFOs have room for. */
    method FifoRoom() returns (txLimit: int, rxLimit: int)
      requires Valid() && hw.emptyOn
      modifies this`hw, this`accesses
      ensures Linked() && Standing(Words(data), old(hw), hw) && Went(bus, old(hw), old(accesses), hw, accesses)
      ensures |hw.sent| < Words(data)
      ensures |hw.tx| + txLimit <= FIFO_SIZE && txLimit >= FIFO_SIZE - |old(hw).tx| && rxLimit >= FIFO_SIZE - rxOutstanding
    {
      hide Link, Commands, StopKept, Lost, Went;
      Elapse();
      ghost var h1, i1 := hw, accesses;
      txLimit := FIFO_SIZE - |hw.tx|;
      Elapse();
      WentOn(bus, old(hw), old(accesses), h1, i1, hw, accesses);
      rxLimit := FIFO_SIZE - |hw.rx|;
      RxFits(View(), hw);
    }

    /** TX_EMPTY stays enabled while words are left. */
    method SetMask()
      requires Linked() && (data == [] ==> |hw.sent| == 1)
      modifies this`hw, this`accesses
      ensures Valid() && hw.sent == old(hw).sent
      ensures Standing(Words(data), old(hw), hw) && Went(bus, old(hw), old(accesses), hw, accesses)
    {
      hide Link, Commands, StopKept, Lost, MaskOk, Went;
      Elapse();
      MaskKeeps(View(), hw);
      MaskKeepsStop(Words(data), hw, txBufferLen > 0);
      WentTouched(bus, old(hw), old(accesses), hw, accesses, hw.(emptyOn := txBufferLen > 0));
      hw := hw.(emptyOn := txBufferLen > 0);
    }

    method QuickCommand()
      requires Linked() && txBufferLen == 0 && |hw.sent| < Total(View())
      modifies this`hw, this`accesses
      ensures Linked() && data == [] && |hw.sent| == 1
      ensures Standing(Words(data), old(hw), hw) && Went(bus, old(hw), old(accesses), hw, accesses)
    {
      hide Link, Commands, Went;
      QuickPut(View(), hw);
      Elapse();
      QuickPut(View(), hw);
      PutTouches(hw, Cmd(read, true, 0));
      WentTouched(bus, old(hw), old(accesses), hw, accesses, Put(hw, Cmd(read, true, 0)));
      hw := Put(hw, Cmd(read, true, 0));
    }

    method WriteWords(txRoom: int, rxRoom: int)
      requires Linked() && (txBufferLen == 0 || hw.abort || |hw.tx| + txRoom <= FIFO_SIZE)
      modifies this`hw, this`accesses, this`txPtr, this`txBufferLen, this`rxOutstanding
      ensures Linked() && (old(txBufferLen) == 0 ==> hw == old(hw))
      ensures old(txBufferLen) > 0 ==> data != []
      ensures Standing(Words(data), old(hw), hw) && Went(bus, old(hw), old(accesses), hw, accesses)
      ensures 0 <= txBufferLen <= old(txBufferLen)
      ensures var n := old(txBufferLen) - txBufferLen;
              txBufferLen == 0 || n >= txRoom || n >= rxRoom || (read && rxOutstanding >= FIFO_SIZE)
      ensures rxOutstanding == old(rxOutstanding) + if read then old(txBufferLen) - txBufferLen else 0
    {
      hide Link, Commands, StopKept, Went;
      var txLimit, rxLimit := txRoom, rxRoom;
      EmptyFits(View(), hw);
      WentSelf(bus, hw, accesses);
      while txBufferLen > 0 && txLimit > 0 && rxLimit > 0
        invariant Linked() && (txBufferLen == 0 || hw.abort || |hw.tx| + txLimit <= FIFO_SIZE)
        invariant Standing(Words(data), old(hw), hw) && Went(bus, old(hw), old(accesses), hw, accesses)
        invariant old(txBufferLen) == 0 ==> hw == old(hw) && txBufferLen == 0
        invariant txBufferLen <= old(txBufferLen) && txLimit == txRoom - (old(txBufferLen) - txBufferLen)
        invariant rxLimit >= rxRoom - (old(txBufferLen) - txBufferLen)
        invariant rxOutstanding == old(rxOutstanding) + if read then old(txBufferLen) - txBufferLen else 0
        decreases txBufferLen
      {
        if read && rxOutstanding >= FIFO_SIZE { break; }
        ghost var h1, i1 := hw, accesses;
        WriteWord();
        WentOn(bus, old(hw), old(accesses), h1, i1, hw, accesses);
        if read { rxLimit := rxLimit - 1; }
        txLimit := txLimit - 1;
      }
    }

    /** One turn of the polling loop: the interrupt bits are those of the state `seen`, the level of the
        receive FIFO is read in the state `level`. After a stop the loop is left exactly when no byte is
        late at that reading; a stop is lost exactly when it was seen together with RX_FULL and a byte
        is late all the same. Seeing TX_EMPTY, the turn fills the transmit FIFO. */
    method Turn() returns (leave: bool, ghost seen: Hw, ghost level: Hw)
      requires Valid() && (StopKept(Words(data), hw) || Lost(Words(data), hw))
      modifies this`hw, this`accesses, this`rxPtr, this`rxBufferLen, this`rxOutstanding, this`txPtr, this`txBufferLen, this`result, this`turnStart, buffer
      ensures turnStart == old(hw) && accesses > old(accesses) && Went(bus, old(hw), old(accesses), hw, accesses)
      ensures !leave ==> Valid() && (StopKept(Words(data), hw) || Lost(Words(data), hw))
      ensures leave && result == 0 ==> Linked() && !hw.abort && hw.done == Words(data) && rxOutstanding == 0
      ensures leave && result != 0 ==> result == -I2C_MASTER_ERROR_NACK && hw.abort && !hw.faulty
      ensures Later(old(hw), seen) && Standing(Words(data), old(hw), seen)
      ensures old(hw).abort || seen.abortBit ==> leave && result != 0
      ensures !seen.abortBit ==> Later(seen.(stop := level.stop), level) && (!seen.stop ==> !leave)
      ensures !seen.abortBit && seen.stop ==> (leave <==> level.late == [])
      ensures !leave ==> (Lost(Words(data), hw) <==>
                          Lost(Words(data), old(hw)) || (seen.stop && seen.rx != [] && level.late != []))
      ensures old(Timely()) ==> seen.late == [] && level.late == []
      ensures old(hw).late == [] && !old(hw).abort && old(hw).done == Words(data) && old(hw).stop ==> leave && result == 0
      ensures !seen.abortBit && seen.emptyOn && |seen.tx| <= 16 ==> Filled(Words(data), read, seen, rxOutstanding, hw, 16)
      ensures old(Timely()) && Idle(old(hw)) && !old(hw).abort && old(hw).done < Words(data) && !leave ==> |hw.sent| > |old(hw).sent|
    {
      hide Link, Commands, Later, StopKept, AfterLook, Prompt, Went;
      ghost var start := hw;
      turnStart := hw;
      WholeStays(View(), hw);
      var stat;
      stat, seen := ReadClearIntrBits();
      StoodBy(Words(data), start, seen);
      WentTimely(bus, start, old(accesses), seen, old(accesses) + 1);
      WentOn(bus, start, old(accesses), seen, old(accesses) + 1, hw, accesses);
      WentTimely(bus, seen, old(accesses) + 1, hw, accesses);
      if stat.abort {
        result := -I2C_MASTER_ERROR_NACK;
        rxOutstanding := 0;
        return true, seen, seen;
      }
      IdleSeen(View(), start, seen, hw);
      ghost var h1, i1 := hw, accesses;
      leave, level := Serve(stat, seen);
      WentTimely(bus, h1, i1, hw, accesses);
      WentOn(bus, start, old(accesses), h1, i1, hw, accesses);
      if Idle(seen) && seen.late == [] == level.late { LevelIs(seen, level); }
    }

    /** The turn without an abort: fetch, send, and leave after a stop with nothing outstanding. */
    method Serve(stat: Stat, ghost seen: Hw) returns (leave: bool, ghost level: Hw)
      requires Valid() && !stat.abort && stat == IntrStat(seen) && AfterLook(Words(data), rxOutstanding, seen, hw)
      requires StopKept(Words(data), seen) || Lost(Words(data), seen)
      modifies this`hw, this`accesses, this`rxPtr, this`rxBufferLen, this`rxOutstanding, this`txPtr, this`txBufferLen, buffer
      ensures Valid() && Later(seen.(stop := level.stop), level)
      ensures leave ==> seen.stop && !hw.abort && hw.done == Words(data) && rxOutstanding == 0
      ensures seen.stop ==> (leave <==> level.late == [])
      ensures !leave ==> (StopKept(Words(data), hw) || Lost(Words(data), hw))
      ensures !leave ==> (Lost(Words(data), hw) <==> Lost(Words(data), seen) || (seen.stop && seen.rx != [] && level.late != []))
      ensures Went(bus, old(hw), old(accesses), hw, accesses)
      ensures old(Timely()) && seen.late == [] ==> level.late == []
      ensures seen.stop && seen.late == [] ==> level.late == []
      ensures stat.txEmpty ==> Filled(Words(data), read, seen, rxOutstanding, hw, FIFO_SIZE - TX_THRESHOLD)
      ensures stat.txEmpty && read && rxOutstanding >= FIFO_SIZE && |hw.sent| == |seen.sent| ==>
                old(rxOutstanding) - (if stat.rxFull then |level.rx| else 0) >= FIFO_SIZE
    {
      hide Link, Commands, Prompt, Went;
      level := hw;
      WentSelf(bus, hw, accesses);
      if stat.rxFull { level := ReadFifo(); }
      ghost var h1, i1 := hw, accesses;
      if stat.txEmpty {
        XferMsg();
        WentOn(bus, old(hw), old(accesses), h1, i1, hw, accesses);
      }
      leave := stat.stop && rxOutstanding == 0;
    }

    /** The bus is seen active by the first `busy` polls; the time is up after `patience` polls. */
    method WaitBusNotBusy(busy: nat, patience: nat) returns (r: int)
      ensures r == if 0 < busy && patience <= busy then -I2C_MASTER_BUS_BUSY else 0
    {
      var polls := 0;
      while polls < busy
        invariant polls <= busy && (polls > 0 ==> polls < patience)
      {
        polls := polls + 1;
        if polls >= patience { return -I2C_MASTER_BUS_BUSY; }
      }
      return 0;
    }

    /** Flushes the FIFOs, clears the interrupt bits and enables the controller for one target. */
    method XferInit(count: nat)
      modifies this`hw
      ensures hw == Hw([], None, [], [], count == 0, true, false, false, false, [], 0, [], false)
    {
      hw := Hw([], None, [], [], count == 0, true, false, false, false, [], 0, [], false);
    }

    /** The polling loop; `turns` is the number of turns that start before the transfer times out. */
    method Poll(turns: nat, ghost pace: nat)
      requires Valid() && StopKept(Words(data), hw) && !Lost(Words(data), hw)
      modifies this`hw, this`accesses, this`rxPtr, this`rxBufferLen, this`rxOutstanding, this`txPtr, this`txBufferLen, this`result, this`turnStart, buffer
      ensures result == 0 ==> Linked() && !hw.abort && hw.done == Words(data) && rxOutstanding == 0
      ensures result in {0, -I2C_MASTER_ERROR_NACK, -I2C_MASTER_TIMEOUT} && (result == -I2C_MASTER_ERROR_NACK ==> hw.abort)
      ensures !hw.faulty && (NeverGivesUp(bus) && !old(hw).abort ==> !hw.abort)
      ensures result == -I2C_MASTER_TIMEOUT && old(Timely()) ==> !Lost(Words(data), hw)
      ensures result == -I2C_MASTER_TIMEOUT && old(Timely()) && turns > 0 ==> turnStart.abort || turnStart.done != Words(data)
      ensures old(Timely()) && !old(hw).abort && Steady(bus, pace) && turns > pace * (2 * Words(data) + 1) ==> result != -I2C_MASTER_TIMEOUT
    {
      hide Link, StopKept, Lost, Commands, Later, AlwaysPrompt, Went, Steady, Countdown;
      var turn := 0;
      WentSelf(bus, hw, accesses);
      ghost var enough := Timely() && !hw.abort && Steady(bus, pace) && turns > pace * (2 * Words(data) + 1);
      if enough { CountdownStarts(View(), bus, hw, accesses, pace, turns); }
      while true
        invariant turn <= turns && Went(bus, old(hw), old(accesses), hw, accesses)
        invariant Valid() && (StopKept(Words(data), hw) || Lost(Words(data), hw))
        invariant old(Timely()) ==> Timely() && !Lost(Words(data), hw)
        invariant old(Timely()) && turn > 0 ==> turnStart.abort || turnStart.done != Words(data)
        invariant enough ==> Countdown(Words(data), bus, hw, accesses, pace, turn, turns)
        decreases turns - turn
      {
        CountdownGoes(Words(data), bus, hw, accesses, pace, turn, turns);
        if turn == turns {
          WentTimely(bus, old(hw), old(accesses), hw, accesses);
          NoFault(View(), hw);
          result := -I2C_MASTER_TIMEOUT;
          break;
        }
        StoodBy(Words(data), hw, hw);
        AtMostAll(View(), hw);
        ghost var h1, i1 := hw, accesses;
        var leave, _, _ := Turn();
        WentOn(bus, old(hw), old(accesses), h1, i1, hw, accesses);
        WentTimely(bus, old(hw), old(accesses), hw, accesses);
        if leave {
          if result == 0 { NoFault(View(), hw); }
          break;
        }
        if enough { CountsDown(View(), bus, h1, i1, hw, accesses, pace, turn, turns); }
        turn := turn + 1;
      }
    }

    /** The whole transfer: the byte count, or -2 when it was given up, -5 for a timeout, -6 when the bus
        stayed busy. On a bus that delivers every byte at once and executes a command at least once in
        `pace` register accesses, enough turns never end in a timeout; when it never gives up either,
        only the byte count is left. */
    method Transfer(bRead: bool, buf: array<u8>, busy: nat, patience: nat, turns: nat, ghost pace: nat) returns (r: int)
      modifies this, buf
      ensures r == -6 <==> 0 < busy && patience <= busy
      ensures r in {buf.Length, -6, -2, -5}
      ensures r >= 0 ==> !hw.abort && hw.sent == Commands(bRead, old(buf[..]))
      ensures r >= 0 && bRead ==> buf[..] == hw.replies
      ensures r >= 0 && !bRead ==> buf[..] == old(buf[..])
      ensures r == -2 ==> hw.abort
      ensures r != -6 ==> !hw.faulty
      ensures r == -5 && AlwaysPrompt(bus) ==>
                && !Lost(Words(old(buf[..])), hw)
                && (turns > 0 ==> turnStart.abort || turnStart.done != Words(old(buf[..])))
      ensures AlwaysPrompt(bus) && Steady(bus, pace) && turns > pace * (2 * Words(old(buf[..])) + 1) ==> r != -5
      ensures NeverGivesUp(bus) ==> r != -2
    {
      hide Link, StopKept, Lost, Commands, Later, Prompt, Happens, AlwaysPrompt, Steady, NeverGivesUp;
      Start(bRead, buf);
      r := WaitBusNotBusy(busy, patience);
      if r != 0 { return; }
      XferInit(buf.Length);
      Begins(View(), hw);
      Poll(turns, pace);
      if result != 0 { return result; }
      r := Outcome();
    }

    /** A transfer's fields before its first register access. */
    method Start(bRead: bool, buf: array<u8>)
      modifies this`read, this`buffer, this`data, this`rxPtr, this`txPtr, this`rxBufferLen, this`txBufferLen, this`rxOutstanding, this`result
      ensures View() == Job(bRead, buf[..], buf[..], buf.Length, buf.Length, 0) && buffer == buf
      ensures rxPtr == 0 && txPtr == 0 && result == 0
    {
      read, buffer, data := bRead, buf, buf[..];
      rxPtr, txPtr := 0, 0;
      rxBufferLen, txBufferLen := buf.Length, buf.Length;
      rxOutstanding := 0;
      result := 0;
    }

    /** The number of bytes of a transfer that left the loop without an error. */
    method Outcome() returns (r: int)
      requires Linked() && !hw.abort && hw.done == Words(data) && rxOutstanding == 0
      ensures r == buffer.Length && !hw.faulty && hw.sent == Commands(read, data)
      ensures buffer[..] == if read then hw.replies else data
    {
      hide Link, Commands;
      NoFault(View(), hw);
      FinishedMeans(View(), hw);
      EmptyFits(View(), hw);
      if read {
        r := buffer.Length - rxBufferLen;
      } else {
        r := buffer.Length - txBufferLen;
      }
    }
  }

  /** The controller after the interrupt bits of `seen` were read and cleared, without an abort: a stop
      was cleared exactly when nothing was outstanding or RX_FULL was seen with it. */
  predicate AfterLook(words: nat, outstanding: nat, seen: Hw, h: Hw) {
    if seen.stop then
      && seen.done == words && !seen.abort && Idle(seen) && !IntrStat(seen).txEmpty
      && |seen.rx| + |seen.late| == outstanding
      && h == (if outstanding == 0 || seen.rx != [] then seen.(stop := false, rx := h.rx, late := h.late) else seen)
      && seen.rx <= h.rx && h.rx + h.late == seen.rx + seen.late
    else h == seen
  }

  /** The words written since `h`: all there are, or `room` of them, or as many as the receive side has
      room for. */
  predicate Filled(words: nat, read: bool, h: Hw, outstanding: int, h': Hw, room: int) {
    |h'.sent| == words || |h'.sent| - |h.sent| >= room || (read && outstanding >= 32)
  }

  lemma SentIs(j: Job, h: Hw)
    requires Link(j, h)
    ensures j.data != [] ==> |h.sent| == |j.data| - j.txLen
    ensures !j.read ==> j.outstanding == 0
  {
    hide Commands;
  }

  lemma WentTimely(bus: Bus, h: Hw, i: nat, h': Hw, i': nat)
    requires Went(bus, h, i, h', i')
    ensures i <= i' && |h.sent| <= |h'.sent| && (h.abort ==> h'.abort) && (AlwaysPrompt(bus) && h.late == [] ==> h'.late == [])
    ensures NeverGivesUp(bus) && !h.abort ==> !h'.abort
  {
    hide Executes;
  }

  /** With nothing under way and words left, TX_EMPTY is seen, and what is outstanding was received. */
  lemma IdleSeen(j: Job, h: Hw, seen: Hw, h': Hw)
    requires Link(j, h') && MaskOk(j, h') && Later(h, seen) && AfterLook(Total(j), j.outstanding, seen, h')
    requires !seen.abortBit
    ensures Idle(h) && !h.abort && h.done < Total(j) && seen.late == [] ==>
              && h' == seen && IntrStat(seen).txEmpty && Idle(seen) && |seen.sent| == |h.sent| < Total(j)
              && (j.read ==> j.outstanding == |seen.rx|)
  {
    if Idle(h) && !h.abort && h.done < Total(j) && seen.late == [] {
      assert !seen.stop && h' == seen;
      QueuedNone(h'.sent, h'.tx, h'.active, h'.done);
      if j.read && j.data != [] { OutstandingIs(j, h'); }
    }
  }

  lemma LevelIs(seen: Hw, level: Hw)
    requires Later(seen.(stop := level.stop), level) && Idle(seen) && seen.late == [] == level.late
    ensures level.rx == seen.rx
  {
  }

  /** What a look changes for a stop to be seen, and what for a lost one. */
  lemma StoodBy(words: nat, h: Hw, h': Hw)
    requires Standing(words, h, h') && (StopKept(words, h) || Lost(words, h))
    ensures StopKept(words, h') || Lost(words, h')
    ensures !h.abort && h.done == words ==> (StopKept(words, h) <==> h.stop)
    ensures (h.abort ==> h.abortBit) && (h'.abort ==> h'.abortBit)
    ensures !(StopKept(words, h') && Lost(words, h'))
  {
  }

  /** A whole transfer with nothing late: whatever the bus does, its stop is seen with everything. */
  lemma WholeStays(j: Job, h: Hw)
    requires Link(j, h)
    ensures !h.abort && h.done == Total(j) && h.late == [] ==>
              forall h' :: Later(h, h') ==> h'.late == [] && h'.stop == h.stop && !h'.abortBit
  {
    AbortBits(j, h);
    if h.done == Total(j) && !h.abort { WholeMeans(j, h); }
    hide Link, Commands;
    forall h' | Later(h, h') && !h.abort && h.done == Total(j) && h.late == [] ensures h'.late == [] {
      assert h'.rx + h'.late == h.rx;
    }
  }

  /** One look at the interrupt bits shows a stop only with everything else it implies. */
  lemma SeenTogether(j: Job, h: Hw)
    requires Link(j, h) && MaskOk(j, h) && (StopKept(Total(j), h) || Lost(Total(j), h))
    ensures var stat := IntrStat(h);
            && !h.faulty && (stat.abort ==> h.abort)
            && (!stat.abort && stat.stop ==>
                  && h.done == Total(j) && !h.abort && Idle(h) && !stat.txEmpty
                  && |h.rx| + |h.late| == j.outstanding)
  {
    hide Commands;
    NoFault(j, h);
    AbortBits(j, h);
    if h.stop && !h.abort {
      StopMeansWhole(j, h);
      WholeMeans(j, h);
    }
  }

  lemma AbortBits(j: Job, h: Hw)
    requires Link(j, h)
    ensures h.abortBit ==> h.abort
  {
  }

  lemma NoFault(j: Job, h: Hw)
    requires Link(j, h)
    ensures !h.faulty
  {
  }

  lemma Begins(j: Job, h: Hw)
    requires h == Hw([], None, [], [], j.data == [], true, false, false, false, [], 0, [], false)
    requires j.buf == j.data && j.rxLen == j.txLen == |j.data| && j.outstanding == 0
    ensures Link(j, h) && MaskOk(j, h) && StopKept(Total(j), h) && !Lost(Total(j), h)
  {
  }
}
