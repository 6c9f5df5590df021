/**
 The I2C controller of the RP1 as the driver sees it: command and data FIFOs, sticky interrupt bits,
 and a bus that executes the commands in order whenever it likes, or gives up. A byte that was received
 may take any time to reach the receive FIFO, but bytes never overtake each other; the stop is made by
 the last command alone, and an interrupt bit stays until it is cleared.
 */
module I2cBus {
  import opened Basics

  const FIFO_SIZE: nat := 32
  const TX_THRESHOLD: nat := FIFO_SIZE / 2

  /** A word written to DATA_CMD: bit 8 is the read bit, bit 9 the stop bit. */
  datatype Cmd = Cmd(read: bool, stop: bool, data: u8)

  /** `tx` and `rx` are the FIFOs, `active` the command on the bus, `late` the bytes that were received
      but have not reached the receive FIFO: any number of them, for any time. `quick` is the SMBus quick command
      bit of the target register, `emptyOn` the TX_EMPTY bit of the interrupt mask. `stop` and
      `abortBit` are the sticky interrupt bits. The rest records the transfer: whether the bus gave it
      up, so that no more commands are taken, the words written, how many commands were executed, the
      bytes received, and whether a FIFO ran over or under. */
  datatype Hw = Hw(
    tx: seq<Cmd>, active: Option<Cmd>, late: seq<u8>, rx: seq<u8>, quick: bool, emptyOn: bool,
    stop: bool, abortBit: bool,
    abort: bool, sent: seq<Cmd>, done: nat, replies: seq<u8>, faulty: bool)

  /** What the bus may do between two register accesses. */
  datatype Happening =
    | Begin           // the next command leaves the FIFO
    | End(byte: u8)   // it is executed, and the last one makes the stop; a read command receives a byte
    | Deliver         // the oldest byte received comes to the receive FIFO
    | GiveUp          // no acknowledge: the FIFO is flushed

  predicate CanHappen(h: Hw, e: Happening) {
    match e
    case Begin => h.active.None? && h.tx != [] && !h.abort
    case End(_) => h.active.Some?
    case Deliver => h.late != []
    case GiveUp => h.active.Some?
  }

  /** What cannot happen does not. */
  function Happen(h: Hw, e: Happening): Hw {
    if !CanHappen(h, e) then h
    else
      match e
      case Begin => h.(tx := h.tx[1..], active := Some(h.tx[0]))
      case End(byte) =>
        var h1 := h.(active := None, done := h.done + 1, stop := h.stop || h.active.value.stop);
        if !h.active.value.read || h.quick then h1
        else h1.(late := h.late + [byte], replies := h.replies + [byte])
      case Deliver =>
        if |h.rx| >= FIFO_SIZE then h.(faulty := true)
        else h.(late := h.late[1..], rx := h.rx + [h.late[0]])
      case GiveUp => h.(tx := [], active := None, abort := true, abortBit := true, stop := true)
  }

  /** A write to DATA_CMD. */
  function Put(h: Hw, c: Cmd): Hw {
    var h1 := h.(sent := h.sent + [c]);
    if h.abort then h1
    else if |h.tx| >= FIFO_SIZE then h1.(faulty := true)
    else h1.(tx := h.tx + [c])
  }

  /** A read of it. */
  function Get(h: Hw): (r: (u8, Hw)) {
    if h.rx == [] then (0, h.(faulty := true)) else (h.rx[0], h.(rx := h.rx[1..]))
  }

  /** What running a FIFO of 32 entries over, or under, shows as. */
  lemma FaultsShow(h: Hw, c: Cmd)
    ensures |h.rx| >= 32 && h.late != [] ==> Happen(h, Deliver).faulty
    ensures |h.tx| >= 32 && !h.abort ==> Put(h, c).faulty
    ensures h.rx == [] ==> Get(h).1.faulty
  {
  }

  function Happens(h: Hw, events: seq<Happening>): Hw
    decreases |events|
  {
    if events == [] then h else Happens(Happen(h, events[0]), events[1..])
  }

  // ---------------------------------------------------------------- driver and bus together

  /** The driver's side of a transfer: `data` is the buffer as the caller passed it, `buf` as it is. */
  datatype Job = Job(read: bool, data: seq<u8>, buf: seq<u8>, rxLen: nat, txLen: nat, outstanding: nat)

  /** The words a transfer has to write: one a byte, the stop bit on the last; an empty transfer is
      the one-word quick command. */
  function Commands(read: bool, data: seq<u8>): (c: seq<Cmd>)
    ensures |c| == Words(data)
  {
    if data == [] then [Cmd(read, true, 0)]
    else seq(|data|, i requires 0 <= i < |data| => Cmd(read, i == |data| - 1, if read then 0 else data[i]))
  }

  function Words(data: seq<u8>): nat { if data == [] then 1 else |data| }
  function Total(j: Job): nat { Words(j.data) }

  /** Exactly one word carries the stop bit, and it is the last. */
  lemma OneStopAndLast(read: bool, data: seq<u8>, i: nat)
    requires i < |Commands(read, data)|
    ensures Commands(read, data)[i].stop <==> i == |Commands(read, data)| - 1
  {
  }

  function Count(b: bool): nat { if b then 1 else 0 }

  /** The words in the FIFO and on the bus are the last ones written. */
  predicate Queued(sent: seq<Cmd>, tx: seq<Cmd>, active: Option<Cmd>, done: nat) {
    && done + Count(active.Some?) + |tx| == |sent|
    && tx == sent[|sent| - |tx|..]
    && (active.Some? ==> active.value == sent[done])
  }

  predicate Begun(read: bool, data: seq<u8>, sent: seq<Cmd>) {
    sent <= Commands(read, data)
  }

  predicate Written(j: Job, h: Hw) {
    && |j.buf| == |j.data| && j.rxLen <= |j.data| && j.txLen <= |j.data|
    && Begun(j.read, j.data, h.sent)
    && (j.data == [] || |h.sent| == |j.data| - j.txLen)
    && (h.quick <==> j.data == [])
    && h.done <= |h.sent| && |h.tx| <= FIFO_SIZE && !h.faulty
    && (if h.abort then h.done < Total(j) && h.active.None? && h.tx == [] else Queued(h.sent, h.tx, h.active, h.done))
    && (h.stop && !h.abort ==> h.done == Total(j))
    && (h.abortBit ==> h.abort)
  }

  /** The bytes received are in the buffer, in the order they came, or still in the FIFO, or late. */
  predicate Received(j: Job, h: Hw)
    requires Written(j, h)
  {
    var n := |j.data| - j.rxLen;
    && (if j.read then
          && j.txLen <= j.rxLen && j.outstanding == j.rxLen - j.txLen <= FIFO_SIZE
          && |h.replies| == (if j.data == [] then 0 else h.done)
          && Arrived(j.data, j.buf, n, h.replies, h.rx + h.late)
        else
          n == 0 && j.outstanding == 0 && h.rx == [] && h.late == [] && h.replies == [] && j.buf == j.data)
  }

  predicate Arrived(data: seq<u8>, buf: seq<u8>, n: nat, replies: seq<u8>, rx: seq<u8>) {
    && n <= |buf| == |data| && buf[n..] == data[n..]
    && |replies| == n + |rx| && replies == buf[..n] + rx
  }

  predicate Link(j: Job, h: Hw) {
    Written(j, h) && Received(j, h)
  }

  /** TX_EMPTY is enabled as long as there are words to write. */
  predicate MaskOk(j: Job, h: Hw) {
    h.emptyOn <==> |h.sent| < Total(j)
  }

  /** The stop of a whole transfer, or that it was given up, is still to be seen. */
  predicate StopKept(words: nat, h: Hw) {
    (!h.abort && h.done == words ==> h.stop) && (h.abort ==> h.abortBit)
  }

  /** The stop of a whole transfer was cleared; it never comes again. */
  predicate Lost(words: nat, h: Hw) {
    !h.abort && h.done == words && !h.stop
  }

  /** Neither a stop to be seen nor a lost one changes. */
  predicate Standing(words: nat, h: Hw, h': Hw) {
    (StopKept(words, h) ==> StopKept(words, h')) && (Lost(words, h) ==> Lost(words, h'))
  }

  /** What happens elsewhere than in the receive FIFO: commands drain, sticky bits are set. */
  predicate Goes(h: Hw, h': Hw) {
    && h'.sent == h.sent && h'.emptyOn == h.emptyOn && h'.quick == h.quick
    && |h'.tx| <= |h.tx| && h.done <= h'.done
    && (h.stop ==> h'.stop) && (h.abort ==> h'.abort) && (h.abortBit ==> h'.abortBit)
    && (Idle(h) ==> h' == h.(rx := h'.rx, late := h'.late, faulty := h'.faulty))
  }

  predicate Idle(h: Hw) {
    h.active.None? && h.tx == []
  }

  /** What the bus can do meanwhile; the receive FIFO only grows, by late bytes when nothing else is
      under way. */
  predicate Later(h: Hw, h': Hw) {
    Goes(h, h') && h.rx <= h'.rx && (Idle(h) ==> h'.rx + h'.late == h.rx + h.late)
  }

  // ---------------------------------------------------------------- what may happen keeps it

  /** In a read, what is outstanding waits in a FIFO, is on the bus or is late. */
  lemma OutstandingIs(j: Job, h: Hw)
    requires Link(j, h) && j.read && !h.abort && j.data != []
    ensures j.outstanding == |h.tx| + Count(h.active.Some?) + |h.late| + |h.rx|
  {
  }

  lemma HappenLater(h: Hw, e: Happening)
    ensures Later(h, Happen(h, e))
  {
    if e.Deliver? { DeliverLater(h); } else { OthersLater(h, e); }
  }

  lemma DeliverLater(h: Hw)
    ensures Later(h, Happen(h, Deliver))
  {
    if h.late != [] {
      Delivered(h.rx, h.late);
      hide Idle;
    }
  }

  lemma Delivered(rx: seq<u8>, late: seq<u8>)
    requires late != []
    ensures (rx + [late[0]]) + late[1..] == rx + late
  {
  }

  lemma OthersLater(h: Hw, e: Happening)
    requires !e.Deliver?
    ensures Later(h, Happen(h, e))
  {
    hide Happen, Later;
    match e
    case Begin => BeginLater(h);
    case End(byte) => EndLater(h, byte);
    case GiveUp => GiveUpLater(h);
  }

  lemma BeginLater(h: Hw)
    ensures Later(h, Happen(h, Begin))
  {
  }

  lemma EndLater(h: Hw, byte: u8)
    ensures Later(h, Happen(h, End(byte)))
  {
  }

  lemma GiveUpLater(h: Hw)
    ensures Later(h, Happen(h, GiveUp))
  {
  }

  /** While a command is on its way the transfer is not whole. */
  lemma BusyIsShort(j: Job, h: Hw)
    requires Link(j, h) && !h.abort && (h.active.Some? || h.tx != [])
    ensures h.done < Total(j)
  {
    hide Commands;
  }

  lemma BeginKeeps(j: Job, h: Hw)
    requires Link(j, h) && CanHappen(h, Begin)
    ensures Link(j, Happen(h, Begin)) && StopKept(Total(j), Happen(h, Begin))
  {
    hide Commands, Queued, Begun, Arrived;
    BusyIsShort(j, h);
    QueuedBegin(h.sent, h.tx, h.done);
  }

  /** The executed command is the next one in order; only the last one makes the stop. */
  lemma EndsInOrder(j: Job, h: Hw)
    requires Link(j, h) && h.active.Some?
    ensures h.done < |h.sent| && h.active.value == Commands(j.read, j.data)[h.done]
    ensures h.active.value.read == j.read
    ensures h.active.value.stop <==> h.done + 1 == Total(j)
    ensures !h.abort && !h.stop
    ensures j.read && !h.quick ==> |h.rx| + |h.late| < j.outstanding
  {
    assert h.active.value == h.sent[h.done] == Commands(j.read, j.data)[h.done];
    OneStopAndLast(j.read, j.data, h.done);
    if j.read && j.data != [] { OutstandingIs(j, h); }
  }

  lemma EndKeeps(j: Job, h: Hw, byte: u8)
    requires Link(j, h) && CanHappen(h, End(byte))
    ensures Link(j, Happen(h, End(byte))) && StopKept(Total(j), Happen(h, End(byte)))
  {
    hide Happen, Written, Received, StopKept;
    EndWritten(j, h, byte);
    EndReceived(j, h, byte);
  }

  lemma EndWritten(j: Job, h: Hw, byte: u8)
    requires Link(j, h) && CanHappen(h, End(byte))
    ensures Written(j, Happen(h, End(byte))) && StopKept(Total(j), Happen(h, End(byte)))
  {
    hide Commands, Queued, Begun, Received;
    EndsInOrder(j, h);
    QueuedEnd(h.sent, h.tx, h.active, h.done);
  }

  lemma EndReceived(j: Job, h: Hw, byte: u8)
    requires Link(j, h) && CanHappen(h, End(byte)) && Written(j, Happen(h, End(byte)))
    ensures Received(j, Happen(h, End(byte)))
  {
    hide Commands, Queued, Begun, Arrived;
    EndsInOrder(j, h);
    if j.read && j.data != [] { ArrivedMore(j.data, j.buf, |j.data| - j.rxLen, h.replies, h.rx, h.late, byte); }
  }

  lemma QueuedEnd(sent: seq<Cmd>, tx: seq<Cmd>, active: Option<Cmd>, done: nat)
    requires Queued(sent, tx, active, done) && active.Some?
    ensures Queued(sent, tx, None, done + 1)
  {
  }

  lemma ArrivedMore(data: seq<u8>, buf: seq<u8>, n: nat, replies: seq<u8>, rx: seq<u8>, late: seq<u8>, byte: u8)
    requires Arrived(data, buf, n, replies, rx + late)
    ensures Arrived(data, buf, n, replies + [byte], rx + (late + [byte]))
  {
    assert rx + (late + [byte]) == (rx + late) + [byte];
    assert replies + [byte] == buf[..n] + ((rx + late) + [byte]);
  }

  lemma DeliverKeeps(j: Job, h: Hw)
    requires Link(j, h) && CanHappen(h, Deliver)
    ensures Link(j, Happen(h, Deliver))
    ensures |h.rx| < FIFO_SIZE && Happen(h, Deliver).rx + Happen(h, Deliver).late == h.rx + h.late
  {
    hide Commands, Queued, Begun, Arrived;
    RxFits(j, h);
    assert (h.rx + [h.late[0]]) + h.late[1..] == h.rx + h.late;
  }

  lemma GiveUpKeeps(j: Job, h: Hw)
    requires Link(j, h) && CanHappen(h, GiveUp)
    ensures Link(j, Happen(h, GiveUp)) && StopKept(Total(j), Happen(h, GiveUp))
  {
    hide Commands, Queued, Begun, Arrived;
    BusyIsShort(j, h);
  }

  lemma HappenKeeps(j: Job, h: Hw, e: Happening)
    requires Link(j, h)
    ensures Link(j, Happen(h, e))
    ensures Standing(Total(j), h, Happen(h, e))
  {
    hide Link;
    if CanHappen(h, e) {
      if !h.abort && !e.Deliver? { BusyIsShort(j, h); }
      match e
      case Begin => BeginKeeps(j, h);
      case End(byte) => EndKeeps(j, h, byte);
      case Deliver => DeliverKeeps(j, h);
      case GiveUp => GiveUpKeeps(j, h);
    }
  }

  lemma {:induction false} HappensKeeps(j: Job, h: Hw, events: seq<Happening>)
    requires Link(j, h)
    ensures Link(j, Happens(h, events)) && Later(h, Happens(h, events))
    ensures Standing(Total(j), h, Happens(h, events))
    decreases |events|
  {
    hide Link, Happen, StopKept, Lost, Later;
    if events == [] {
      LaterSelf(h);
    } else {
      var h1 := Happen(h, events[0]);
      HappenKeeps(j, h, events[0]);
      HappenLater(h, events[0]);
      HappensKeeps(j, h1, events[1..]);
      LaterOn(h, h1, Happens(h1, events[1..]));
    }
  }

  lemma LaterSelf(h: Hw)
    ensures Later(h, h)
  {
  }

  lemma LaterOn(h: Hw, h1: Hw, h2: Hw)
    requires Later(h, h1) && Later(h1, h2)
    ensures Later(h, h2)
  {
  }

  // ---------------------------------------------------------------- a bus that delivers in time

  /** Every byte is delivered as soon as it is received. */
  predicate Prompt(events: seq<Happening>)
    decreases |events|
  {
    events != [] ==>
      if events[0].End? then |events| > 1 && events[1].Deliver? && Prompt(events[2..])
      else Prompt(events[1..])
  }

  lemma {:induction false} PromptDelivers(j: Job, h: Hw, events: seq<Happening>)
    requires Link(j, h) && h.late == [] && Prompt(events)
    ensures Happens(h, events).late == []
    decreases |events|
  {
    hide Link;
    if events != [] {
      var h1 := Happen(h, events[0]);
      HappenKeeps(j, h, events[0]);
      if events[0].End? {
        var h2 := Happen(h1, events[1]);
        HappenKeeps(j, h1, events[1]);
        if h1.late != [] { DeliverKeeps(j, h1); }
        assert events[1..][0] == events[1] && events[1..][1..] == events[2..];
        PromptDelivers(j, h2, events[2..]);
      } else {
        PromptDelivers(j, h1, events[1..]);
      }
    }
  }

  // ---------------------------------------------------------------- a bus that goes on

  /** What happens before each register access, the first, the second, and so on. */
  type Bus = nat -> seq<Happening>

  ghost predicate AlwaysPrompt(bus: Bus) { forall i: nat :: Prompt(bus(i)) }

  ghost predicate NeverGivesUp(bus: Bus) { forall i: nat :: GiveUp !in bus(i) }

  /** A command begins and one ends after that: if any is queued or on the bus, one is executed. */
  predicate Executes(events: seq<Happening>)
    decreases |events|
  {
    events != [] && if events[0].Begin? then Ends(events[1..]) else Executes(events[1..])
  }

  predicate Ends(events: seq<Happening>)
    decreases |events|
  {
    events != [] && (events[0].End? || Ends(events[1..]))
  }

  /** At least once in `pace` register accesses. */
  ghost predicate Steady(bus: Bus, pace: nat) { forall i: nat :: Soon(bus, i, pace) }

  predicate Soon(bus: Bus, i: nat, pace: nat)
    decreases pace
  {
    pace > 0 && (Executes(bus(i)) || Soon(bus, i + 1, pace - 1))
  }

  /** How many accesses it takes. */
  function Wait(bus: Bus, i: nat, pace: nat): (w: nat)
    requires Soon(bus, i, pace)
    ensures w < pace && Executes(bus(i + w)) && forall k :: i <= k < i + w ==> !Executes(bus(k))
    decreases pace
  {
    if Executes(bus(i)) then 0 else 1 + Wait(bus, i + 1, pace - 1)
  }

  lemma WaitsLess(bus: Bus, i: nat, i': nat, pace: nat)
    requires Steady(bus, pace) && i <= i' && forall k :: i <= k < i' ==> !Executes(bus(k))
    ensures Soon(bus, i, pace) && Soon(bus, i', pace)
    ensures Wait(bus, i', pace) + (i' - i) == Wait(bus, i, pace)
  {
    var w, w' := Wait(bus, i, pace), Wait(bus, i', pace);
    hide Executes, Soon, Wait;
    assert Executes(bus(i + w)) && Executes(bus(i' + w'));
  }

  lemma {:induction false} EndsOne(h: Hw, events: seq<Happening>)
    requires Ends(events) && h.active.Some?
    ensures var h' := Happens(h, events); h'.done > h.done || (h'.abort && h.done <= h'.done)
    decreases |events|
  {
    hide Happen;
    var h1 := Happen(h, events[0]);
    HappenForward(h, events[0]);
    HappensForward(h1, events[1..]);
    if h1.active.Some? && !events[0].End? { EndsOne(h1, events[1..]); }
  }

  lemma {:induction false} ExecutesOne(h: Hw, events: seq<Happening>)
    requires Executes(events) && !Idle(h) && !h.abort
    ensures var h' := Happens(h, events); h'.done > h.done || (h'.abort && h.done <= h'.done)
    decreases |events|
  {
    hide Happen, Idle;
    var h1 := Happen(h, events[0]);
    HappenForward(h, events[0]);
    HappensForward(h1, events[1..]);
    if events[0].Begin? {
      EndsOne(h1, events[1..]);
    } else if h1.done == h.done && !h1.abort {
      ExecutesOne(h1, events[1..]);
    }
  }

  lemma {:induction false} HappensForward(h: Hw, events: seq<Happening>)
    ensures var h' := Happens(h, events);
            h'.sent == h.sent && h'.done >= h.done && (h.abort ==> h'.abort)
    decreases |events|
  {
    hide Happen;
    if events != [] {
      HappenForward(h, events[0]);
      HappensForward(Happen(h, events[0]), events[1..]);
    }
  }

  lemma HappenForward(h: Hw, e: Happening)
    ensures var h' := Happen(h, e);
            && h'.sent == h.sent && h'.done >= h.done && (h.abort ==> h'.abort)
            && (h.active.Some? && e.End? ==> h'.done > h.done)
            && (e.GiveUp? || h'.abort == h.abort)
            && (h.active.Some? && !e.End? && !h'.abort ==> h'.active.Some?)
            && (e.Begin? && !Idle(h) && !h.abort ==> h'.active.Some?)
            && (!Idle(h) && h'.done == h.done && !h'.abort ==> !Idle(h'))
  {
    HappenDoes(h, e);
    HappenMoves(h, e);
    hide Happen, Idle;
  }

  lemma HappenDoes(h: Hw, e: Happening)
    ensures var h' := Happen(h, e);
            && h'.sent == h.sent && h'.done >= h.done && (h.abort ==> h'.abort)
            && (h.active.Some? && e.End? ==> h'.done > h.done)
            && (e.GiveUp? || h'.abort == h.abort)
  {
  }

  lemma HappenMoves(h: Hw, e: Happening)
    ensures var h' := Happen(h, e);
            && (h.active.Some? && !e.End? && !h'.abort ==> h'.active.Some?)
            && (e.Begin? && !Idle(h) && !h.abort ==> h'.active.Some?)
            && (!Idle(h) && h'.done == h.done && !h'.abort ==> !Idle(h'))
  {
  }

  lemma {:induction false} NoGiveUp(h: Hw, events: seq<Happening>)
    requires GiveUp !in events && !h.abort
    ensures !Happens(h, events).abort
    decreases |events|
  {
    hide Happen;
    if events != [] {
      HappenForward(h, events[0]);
      NoGiveUp(Happen(h, events[0]), events[1..]);
    }
  }

  /** Something is under way, and nothing came of it. */
  predicate Stuck(h: Hw, h': Hw) {
    !Idle(h) && !h'.abort && h'.done == h.done && |h'.sent| == |h.sent|
  }

  /** From the controller `h` before access `i` to `h'` before access `i'`, driver and bus together. */
  ghost predicate Went(bus: Bus, h: Hw, i: nat, h': Hw, i': nat) {
    && i <= i' && h.done <= h'.done && |h.sent| <= |h'.sent| && (h.abort ==> h'.abort)
    && (AlwaysPrompt(bus) && h.late == [] ==> h'.late == [])
    && (NeverGivesUp(bus) && !h.abort ==> !h'.abort)
    && (Stuck(h, h') ==> !Idle(h') && forall k :: i <= k < i' ==> !Executes(bus(k)))
  }

  lemma WentSelf(bus: Bus, h: Hw, i: nat)
    ensures Went(bus, h, i, h, i)
  {
  }

  lemma WentOn(bus: Bus, h: Hw, i: nat, h1: Hw, i1: nat, h2: Hw, i2: nat)
    requires Went(bus, h, i, h1, i1) && Went(bus, h1, i1, h2, i2)
    ensures Went(bus, h, i, h2, i2)
  {
    hide Idle, Executes, AlwaysPrompt, NeverGivesUp;
  }

  /** What the bus does before one access. */
  lemma WentBy(j: Job, bus: Bus, h: Hw, i: nat)
    requires Link(j, h)
    ensures Went(bus, h, i, Happens(h, bus(i)), i + 1)
  {
    var h' := Happens(h, bus(i));
    HappensForward(h, bus(i));
    HappensKeeps(j, h, bus(i));
    if AlwaysPrompt(bus) && h.late == [] { PromptDelivers(j, h, bus(i)); }
    if NeverGivesUp(bus) && !h.abort { NoGiveUp(h, bus(i)); }
    if Stuck(h, h') {
      if Executes(bus(i)) { ExecutesOne(h, bus(i)); }
      StillBusy(j, h, h');
    }
  }

  lemma StillBusy(j: Job, h: Hw, h': Hw)
    requires Link(j, h) && Link(j, h') && Stuck(h, h') && !h.abort
    ensures !Idle(h')
  {
    hide Commands, Begun, Arrived;
    QueuedNone(h.sent, h.tx, h.active, h.done);
    QueuedNone(h'.sent, h'.tx, h'.active, h'.done);
  }

  /** An access itself executes nothing and delivers nothing. */
  predicate Touched(h: Hw, h': Hw) {
    && h'.done == h.done && |h.sent| <= |h'.sent| && h'.abort == h.abort && h'.late == h.late
    && (Idle(h') ==> Idle(h))
  }

  lemma WentTouched(bus: Bus, h: Hw, i: nat, h1: Hw, i1: nat, h2: Hw)
    requires Went(bus, h, i, h1, i1) && Touched(h1, h2)
    ensures Went(bus, h, i, h2, i1)
  {
  }

  lemma PutStands(words: nat, h: Hw, c: Cmd)
    requires h.abort || h.done < words
    ensures Standing(words, h, Put(h, c)) && |Put(h, c).tx| <= |h.tx| + 1 && Put(h, c).abort == h.abort
  {
  }

  lemma GetTouches(h: Hw)
    ensures Touched(h, Get(h).1)
  {
  }

  lemma PutTouches(h: Hw, c: Cmd)
    ensures Touched(h, Put(h, c)) && |Put(h, c).sent| == |h.sent| + 1
  {
  }

  /** Such a bus, as fast as can be. */
  lemma SomeBusGoesOn(bus: Bus, byte: u8)
    requires forall i: nat :: bus(i) == [Begin, End(byte), Deliver]
    ensures AlwaysPrompt(bus) && NeverGivesUp(bus) && Steady(bus, 1)
  {
    var events := [Begin, End(byte), Deliver];
    assert events[1..] == [End(byte), Deliver] && events[3..] == [];
    assert events[1..][2..] == [];
    assert Prompt([]);
    assert Prompt(events[1..]);
  }

  // ---------------------------------------------------------------- how many turns it takes

  /** What is left to do, in accesses: every word has to be written and executed. */
  function Left(words: nat, bus: Bus, h: Hw, i: nat, pace: nat): int
    requires Soon(bus, i, pace)
  {
    pace * (2 * words - h.done - |h.sent|) + Wait(bus, i, pace)
  }

  /** A turn that writes a word when nothing is under way leaves less to do. */
  lemma LessLeft(words: nat, bus: Bus, h: Hw, i: nat, h': Hw, i': nat, pace: nat)
    requires Steady(bus, pace) && Went(bus, h, i, h', i') && i < i' && !h'.abort
    requires Idle(h) ==> |h'.sent| > |h.sent|
    ensures Soon(bus, i, pace) && Soon(bus, i', pace)
    ensures Left(words, bus, h', i', pace) < Left(words, bus, h, i, pace)
  {
    hide Executes;
    var d := (h'.done + |h'.sent|) - (h.done + |h.sent|);
    if Stuck(h, h') {
      WaitsLess(bus, i, i', pace);
    } else {
      var n := 2 * words - h.done - |h.sent|;
      Rounds(pace, n, d);
    }
  }

  /** After `turn` turns the others will do; once the transfer was given up, one is enough. */
  ghost predicate Countdown(words: nat, bus: Bus, h: Hw, i: nat, pace: nat, turn: nat, turns: nat) {
    && Steady(bus, pace) && Soon(bus, i, pace)
    && if h.abort then turn < turns else 0 <= Left(words, bus, h, i, pace) < turns - turn - 1
  }

  lemma CountdownStarts(j: Job, bus: Bus, h: Hw, i: nat, pace: nat, turns: nat)
    requires Link(j, h) && !h.abort && Steady(bus, pace) && turns > pace * (2 * Total(j) + 1)
    ensures Countdown(Total(j), bus, h, i, pace, 0, turns)
  {
    hide Executes, Link, Soon, Wait;
    AtMostAll(j, h);
    assert Soon(bus, i, pace);
    AllLeft(pace, 2 * Total(j), h.done + |h.sent|, Wait(bus, i, pace), turns);
  }

  lemma AllLeft(pace: nat, all: nat, n: nat, wait: nat, turns: nat)
    requires n <= all && wait < pace && turns > pace * (all + 1)
    ensures 0 <= pace * (all - n) + wait < turns - 1
  {
    Products(pace, 0, all - n);
    Products(pace, all - n, all);
    assert pace * (all + 1) == pace * all + pace;
  }

  lemma Products(a: nat, x: nat, y: nat)
    requires x <= y
    ensures a * x <= a * y
  {
  }

  lemma AtMostAll(j: Job, h: Hw)
    requires Link(j, h)
    ensures h.done <= |h.sent| <= Total(j)
  {
    hide Commands;
    BegunWhole(j.read, j.data, h.sent);
  }

  lemma CountdownGoes(words: nat, bus: Bus, h: Hw, i: nat, pace: nat, turn: nat, turns: nat)
    ensures Countdown(words, bus, h, i, pace, turn, turns) ==> turn < turns
  {
  }

  lemma CountsDown(j: Job, bus: Bus, h: Hw, i: nat, h': Hw, i': nat, pace: nat, turn: nat, turns: nat)
    requires Countdown(Total(j), bus, h, i, pace, turn, turns) && !h.abort && Link(j, h')
    requires Went(bus, h, i, h', i') && i < i' && (Idle(h) && !h'.abort ==> |h'.sent| > |h.sent|)
    ensures Countdown(Total(j), bus, h', i', pace, turn + 1, turns)
  {
    assert Soon(bus, i', pace);
    AtMostAll(j, h');
    Products(pace, 0, 2 * Total(j) - h'.done - |h'.sent|);
    if !h'.abort { LessLeft(Total(j), bus, h, i, h', i', pace); }
    hide Went, Executes, Link, Steady;
  }

  lemma Rounds(pace: nat, n: int, d: int)
    requires d >= 1
    ensures pace * (n - d) + pace <= pace * n
  {
    assert pace * (n - d) == pace * n - pace * d;
    if d > 1 { Rounds(pace, n, d - 1); }
  }

  // ---------------------------------------------------------------- the driver's accesses keep it

  lemma BegunNext(read: bool, data: seq<u8>, sent: seq<Cmd>)
    requires Begun(read, data, sent) && |sent| < |data|
    ensures Begun(read, data, sent + [Commands(read, data)[|sent|]])
  {
  }

  lemma QueuedPut(sent: seq<Cmd>, tx: seq<Cmd>, active: Option<Cmd>, done: nat, c: Cmd)
    requires Queued(sent, tx, active, done)
    ensures Queued(sent + [c], tx + [c], active, done)
  {
  }

  lemma QueuedBegin(sent: seq<Cmd>, tx: seq<Cmd>, done: nat)
    requires Queued(sent, tx, None, done) && tx != []
    ensures Queued(sent, tx[1..], Some(tx[0]), done)
  {
  }

  /** Writing the next word of a transfer of at least one byte: neither FIFO can run over. */
  lemma PutKeeps(j: Job, h: Hw)
    requires Link(j, h) && j.txLen > 0 && (h.abort || |h.tx| < FIFO_SIZE)
    requires j.read ==> j.outstanding < FIFO_SIZE
    ensures j.txLen <= |j.data| == |j.buf| && (!j.read ==> j.buf == j.data)
    ensures !h.abort ==> h.done < Total(j)
    ensures var c := Cmd(j.read, j.txLen == 1, if j.read then 0 else j.data[|j.data| - j.txLen]);
            Link(j.(txLen := j.txLen - 1, outstanding := if j.read then j.outstanding + 1 else j.outstanding), Put(h, c))
  {
    hide Commands, Queued, Begun, Arrived;
    var i := |j.data| - j.txLen;
    var c := Cmd(j.read, j.txLen == 1, if j.read then 0 else j.data[i]);
    CommandAt(j.read, j.data, i);
    BegunWhole(j.read, j.data, h.sent);
    BegunNext(j.read, j.data, h.sent);
    if !h.abort {
      QueuedNone(h.sent, h.tx, h.active, h.done);
      QueuedPut(h.sent, h.tx, h.active, h.done, c);
    }
  }

  lemma CommandAt(read: bool, data: seq<u8>, i: nat)
    requires i < |data|
    ensures Commands(read, data)[i] == Cmd(read, i == |data| - 1, if read then 0 else data[i])
  {
  }

  /** An empty transfer writes its one word. */
  lemma QuickPut(j: Job, h: Hw)
    requires Link(j, h) && j.txLen == 0 && |h.sent| < Total(j)
    ensures j.data == [] && h.done < Total(j)
    ensures Link(j, Put(h, Cmd(j.read, true, 0))) && |Put(h, Cmd(j.read, true, 0)).sent| == 1
  {
  }

  lemma EmptyFits(j: Job, h: Hw)
    requires Link(j, h)
    ensures j.txLen <= |j.data|
  {
  }

  /** What was received and not fetched is never more than is outstanding. */
  lemma RxFits(j: Job, h: Hw)
    requires Link(j, h)
    ensures |h.rx| + |h.late| <= j.outstanding <= FIFO_SIZE && (j.read ==> j.outstanding <= j.rxLen)
    ensures !j.read ==> j.outstanding == 0
  {
    hide Commands;
  }

  lemma MaskKeeps(j: Job, h: Hw)
    requires Link(j, h) && (j.data == [] ==> |h.sent| == 1)
    ensures Link(j, h.(emptyOn := j.txLen > 0)) && MaskOk(j, h.(emptyOn := j.txLen > 0))
  {
    hide Commands;
  }

  lemma MaskKeepsStop(words: nat, h: Hw, on: bool)
    ensures StopKept(words, h) <==> StopKept(words, h.(emptyOn := on))
    ensures Lost(words, h) <==> Lost(words, h.(emptyOn := on))
  {
  }

  lemma ClearKeeps(j: Job, h: Hw)
    requires Link(j, h)
    ensures Link(j, h.(stop := false)) && Link(j, h.(abortBit := false))
  {
    hide Commands, Queued, Begun, Arrived;
  }

  /** Fetching a byte puts the oldest one not fetched yet where it belongs. */
  lemma GetKeeps(j: Job, h: Hw)
    requires Link(j, h) && j.read && h.rx != [] && j.rxLen > 0
    ensures j.outstanding > 0 && |j.buf| == |j.data| >= j.rxLen
    ensures var n := |j.data| - j.rxLen;
            Link(j.(buf := j.buf[n := Get(h).0], rxLen := j.rxLen - 1, outstanding := j.outstanding - 1), Get(h).1)
  {
    hide Commands, Queued, Begun, Arrived;
    var n := |j.data| - j.rxLen;
    var rx := h.rx + h.late;
    ArrivedCount(j.data, j.buf, n, h.replies, rx);
    ArrivedNext(j.data, j.buf, n, h.replies, rx);
    assert rx[1..] == h.rx[1..] + h.late;
  }

  lemma ArrivedNext(data: seq<u8>, buf: seq<u8>, n: nat, replies: seq<u8>, rx: seq<u8>)
    requires Arrived(data, buf, n, replies, rx) && rx != [] && n < |data|
    ensures |buf| == |data| && Arrived(data, buf[n := rx[0]], n + 1, replies, rx[1..])
  {
    var b := rx[0];
    assert rx == [b] + rx[1..];
    var buf' := buf[n := b];
    assert buf'[..n + 1] == buf[..n] + [b];
    forall k | n + 1 <= k < |data| ensures buf'[k] == data[k] {
      assert buf[n..][k - n] == data[n..][k - n];
    }
    assert buf'[n + 1..] == data[n + 1..];
  }

  /** When the whole transfer was executed, every word was written, and whatever is outstanding is in
      the receive FIFO or late. */
  lemma WholeMeans(j: Job, h: Hw)
    requires Link(j, h) && h.done == Total(j) && !h.abort
    ensures h.sent == Commands(j.read, j.data) && j.txLen == 0
    ensures Idle(h) && |h.rx| + |h.late| == j.outstanding == (if j.read then j.rxLen else 0)
  {
    hide Commands, Begun, Queued, Arrived;
    BegunWhole(j.read, j.data, h.sent);
    QueuedNone(h.sent, h.tx, h.active, h.done);
    if j.read { ArrivedCount(j.data, j.buf, |j.data| - j.rxLen, h.replies, h.rx + h.late); }
  }

  /** A stop that is seen without an abort is that of a whole transfer. */
  lemma StopMeansWhole(j: Job, h: Hw)
    requires Link(j, h) && h.stop && !h.abort
    ensures h.done == Total(j)
  {
    hide Commands, Begun, Queued, Arrived;
  }

  lemma BegunWhole(read: bool, data: seq<u8>, sent: seq<Cmd>)
    requires Begun(read, data, sent)
    ensures |sent| <= Words(data) && (|sent| == Words(data) ==> sent == Commands(read, data))
  {
  }

  lemma QueuedNone(sent: seq<Cmd>, tx: seq<Cmd>, active: Option<Cmd>, done: nat)
    requires Queued(sent, tx, active, done)
    ensures done + Count(active.Some?) + |tx| == |sent|
  {
  }

  lemma ArrivedCount(data: seq<u8>, buf: seq<u8>, n: nat, replies: seq<u8>, rx: seq<u8>)
    requires Arrived(data, buf, n, replies, rx)
    ensures |replies| == n + |rx|
  {
  }

  /** A finished transfer: all words written, and a read has every byte in the order it came. */
  lemma FinishedMeans(j: Job, h: Hw)
    requires Link(j, h) && !h.abort && h.done == Total(j) && j.outstanding == 0
    ensures h.sent == Commands(j.read, j.data) && j.txLen == 0
    ensures j.read ==> j.rxLen == 0 && j.buf == h.replies
    ensures !j.read ==> j.buf == j.data
  {
    WholeMeans(j, h);
    assert j.buf[..|j.data|] == j.buf;
  }

  /** A read of two bytes with both commands in the FIFO. */
  const TWO := Hw([Cmd(true, false, 0), Cmd(true, true, 0)], None, [], [], false, false, false, false, false,
                  [Cmd(true, false, 0), Cmd(true, true, 0)], 0, [], false)

  /** When the last byte is late while another one waits, the stop is seen together with RX_FULL; it is
      cleared, and the byte that is fetched then is not the last. */
  lemma LateByteLosesStop(a: u8, b: u8)
    ensures var h := Happens(TWO, [Begin, End(a), Deliver, Begin, End(b)]);
            && Link(Job(true, [0, 0], [0, 0], 2, 0, 2), TWO) && Link(Job(true, [0, 0], [0, 0], 2, 0, 2), h)
            && h.stop && h.rx == [a] && h.late == [b] && Lost(2, h.(stop := false))
  {
    var j := Job(true, [0, 0], [0, 0], 2, 0, 2);
    var events := [Begin, End(a), Deliver, Begin, End(b)];
    assert Commands(true, [0, 0]) == TWO.sent;
    assert [0, 0][..0] == [];
    assert TWO.tx[1..] == [Cmd(true, true, 0)];
    assert events[1..] == [End(a), Deliver, Begin, End(b)];
    assert events[1..][1..] == [Deliver, Begin, End(b)];
    assert [Deliver, Begin, End(b)][1..] == [Begin, End(b)];
    assert [Begin, End(b)][1..] == [End(b)];
    assert [End(b)][1..] == [];
    var h1 := Happen(TWO, Begin);
    var h2 := Happen(h1, End(a));
    var h3 := Happen(h2, Deliver);
    var h4 := Happen(h3, Begin);
    var h5 := Happen(h4, End(b));
    assert Happens(TWO, events) == h5 by {
      assert Happens(TWO, events) == Happens(h1, events[1..]);
      assert Happens(h1, events[1..]) == Happens(h2, [Deliver, Begin, End(b)]);
      assert Happens(h2, [Deliver, Begin, End(b)]) == Happens(h3, [Begin, End(b)]);
      assert Happens(h3, [Begin, End(b)]) == Happens(h4, [End(b)]);
      assert Happens(h4, [End(b)]) == Happens(h5, []);
    }
    HappensKeeps(j, TWO, events);
  }
}
