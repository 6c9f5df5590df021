/**
 AudioRingBuffer: one producer core and one consumer core share a ring of stereo samples with
 no lock. Every load and store of a shared word is a step of its own, in any interleaving;
 the data memory barriers make the order of these steps the program order on both cores.
 */
module AudioRing {
  import opened Basics

  const SIZE: nat := 8192

  type s16 = x: int | -0x8000 <= x < 0x8000

  /** `(a - b - c) & MASK` on 32-bit unsigned integers. */
  function Distance(a: nat, b: nat, c: nat := 0): (d: nat)
    ensures d < SIZE
    ensures d == (a - b - c) % SIZE
  {
    MaskOfWrap(a - b - c);
    (a - b - c) % U32 % SIZE
  }

  lemma MaskOfWrap(x: int)
    ensures x % U32 % SIZE == x % SIZE
  {
    var q, r := x / U32, x % U32;
    Regroup(q, r / SIZE, r % SIZE);
    Residue(x, 0x8_0000 * q + r / SIZE, r % SIZE);
  }

  lemma Regroup(q: int, a: int, b: int)
    ensures U32 * q + (SIZE * a + b) == SIZE * (0x8_0000 * q + a) + b
  {
  }

  function Available(readIdx: nat, writeIdx: nat): (n: nat)
    ensures n < SIZE
  {
    Distance(writeIdx, readIdx)
  }

  function FreeSpace(readIdx: nat, writeIdx: nat): (n: nat)
    ensures n < SIZE
  {
    Distance(readIdx, writeIdx, 1)
  }

  /** Whatever pair of indices is seen, the two counts add up to SIZE - 1. */
  lemma CountsAddUp(readIdx: nat, writeIdx: nat)
    ensures Available(readIdx, writeIdx) + FreeSpace(readIdx, writeIdx) == SIZE - 1
  {
    var d := writeIdx - readIdx;
    assert d == SIZE * (d / SIZE) + d % SIZE;
    assert -d - 1 == SIZE * (-(d / SIZE) - 1) + (SIZE - 1 - d % SIZE);
    Residue(-d - 1, -(d / SIZE) - 1, SIZE - 1 - d % SIZE);
  }

  lemma Residue(x: int, q: int, r: nat)
    requires x == SIZE * q + r && r < SIZE
    ensures x % SIZE == r
  {
  }

  /** The slot the j-th word of an n-sample copy from `start` touches: one chunk, or two if the
      copy wraps around the end. */
  function Slot(start: nat, n: nat, j: nat): (s: nat)
    requires start < SIZE && n < SIZE && j < 2 * n
    ensures s < 2 * SIZE
    ensures s == 2 * ((start + j / 2) % SIZE) + j % 2
  {
    if start + n <= SIZE then 2 * start + j
    else
      var firstChunk := SIZE - start;
      if j < 2 * firstChunk then 2 * start + j else j - 2 * firstChunk
  }

  // ---------------------------------------------------------------- the shared state

  /** One side of the ring: waiting to look at the other side's index, or copying `n` samples,
      with the set of words already copied (memcpy may take any order). */
  datatype Side =
    | Idle
    | Look(num: nat)
    | Copy(start: nat, n: nat, done: set<nat>)

  /** `accepted` and `consumed` are the samples of all finished calls, as interleaved words. */
  datatype State = State(
    buffer: seq<s16>, readIdx: nat, writeIdx: nat,
    producer: Side, input: seq<s16>,
    consumer: Side, output: seq<s16>,
    accepted: seq<s16>, consumed: seq<s16>)

  datatype Event =
    | WriteCall(samples: seq<s16>, num: nat)
    | WriteLook            // reads read_idx and its own write_idx
    | Store(j: nat)        // copies one word into the buffer
    | WriteDone            // publishes write_idx
    | ReadCall(num: nat)
    | ReadLook             // reads write_idx and its own read_idx
    | Load(j: nat)         // copies one word out of the buffer
    | ReadDone             // publishes read_idx

  /** Every word of the copy went over. */
  predicate AllDone(done: set<nat>, n: nat) {
    forall j :: 0 <= j < 2 * n ==> j in done
  }

  predicate Enabled(s: State, e: Event) {
    match e
    case WriteCall(samples, num) => s.producer.Idle? && 2 * num <= |samples|
    case WriteLook => s.producer.Look?
    case Store(j) => s.producer.Copy? && j < 2 * s.producer.n && j !in s.producer.done
    case WriteDone => s.producer.Copy? && AllDone(s.producer.done, s.producer.n)
    case ReadCall(num) => s.consumer.Idle?
    case ReadLook => s.consumer.Look?
    case Load(j) => s.consumer.Copy? && j < 2 * s.consumer.n && j !in s.consumer.done
    case ReadDone => s.consumer.Copy? && AllDone(s.consumer.done, s.consumer.n)
  }

  /** Init, with both cores outside a call. */
  function Initial(): State {
    State(seq(2 * SIZE, _ => 0), 0, 0, Idle, [], Idle, [], [], [])
  }

  function Apply(s: State, e: Event): State
    requires Inv(s) && Enabled(s, e)
  {
    match e
    case WriteCall(samples, num) => s.(producer := Look(num), input := samples)
    case WriteLook =>
      var n := Min(s.producer.num, FreeSpace(s.readIdx, s.writeIdx));
      if n == 0 then s.(producer := Idle) else s.(producer := Copy(s.writeIdx, n, {}))
    case Store(j) =>
      s.(buffer := s.buffer[Slot(s.producer.start, s.producer.n, j) := s.input[j]],
         producer := s.producer.(done := s.producer.done + {j}))
    case WriteDone =>
      s.(writeIdx := (s.writeIdx + s.producer.n) % SIZE,
         accepted := s.accepted + s.input[..2 * s.producer.n],
         producer := Idle)
    case ReadCall(num) => s.(consumer := Look(num))
    case ReadLook =>
      var n := Min(s.consumer.num, Available(s.readIdx, s.writeIdx));
      if n == 0 then s.(consumer := Idle)
      else s.(consumer := Copy(s.readIdx, n, {}), output := Repeat<s16>(0, 2 * n))
    case Load(j) =>
      s.(output := s.output[j := s.buffer[Slot(s.consumer.start, s.consumer.n, j)]],
         consumer := s.consumer.(done := s.consumer.done + {j}))
    case ReadDone =>
      s.(readIdx := (s.readIdx + s.consumer.n) % SIZE,
         consumed := s.consumed + s.output,
         consumer := Idle)
  }

  // ---------------------------------------------------------------- the invariant

  /** How many samples were published, and how many were taken out. */
  function Written(s: State): nat { |s.accepted| / 2 }
  function Taken(s: State): nat { |s.consumed| / 2 }

  ghost predicate Indices(s: State) {
    && |s.accepted| % 2 == 0 && |s.consumed| % 2 == 0
    && |s.buffer| == 2 * SIZE
    && Taken(s) <= Written(s) < Taken(s) + SIZE
    && s.writeIdx == Written(s) % SIZE && s.readIdx == Taken(s) % SIZE
  }

  /** Word `i` of the stream lives in this slot. */
  function Place(i: nat): (p: nat)
    ensures p < 2 * SIZE
  {
    2 * (i / 2 % SIZE) + i % 2
  }

  /** The published samples that were not taken yet are in their slots. */
  ghost predicate Held(s: State)
    requires Indices(s)
  {
    forall i :: |s.consumed| <= i < |s.accepted| ==> s.buffer[Place(i)] == s.accepted[i]
  }

  ghost predicate ProducerOk(s: State)
    requires Indices(s)
  {
    match s.producer
    case Idle => true
    case Look(num) => 2 * num <= |s.input|
    case Copy(start, n, done) =>
      && start == s.writeIdx && 0 < n && Written(s) + n < Taken(s) + SIZE && 2 * n <= |s.input|
      && forall j :: j in done ==> j < 2 * n && s.buffer[Slot(start, n, j)] == s.input[j]
  }

  ghost predicate ConsumerOk(s: State)
    requires Indices(s)
  {
    match s.consumer
    case Idle => true
    case Look(num) => true
    case Copy(start, n, done) =>
      && start == s.readIdx && 0 < n && Taken(s) + n <= Written(s) && |s.output| == 2 * n
      && forall j :: j in done ==> j < 2 * n && s.output[j] == s.accepted[|s.consumed| + j]
  }

  ghost predicate Inv(s: State) {
    && Indices(s) && Held(s) && ProducerOk(s) && ConsumerOk(s)
    && s.consumed == s.accepted[..|s.consumed|]
  }

  // ---------------------------------------------------------------- every step keeps it

  /** Two words of the stream less than one lap apart live in different slots. */
  lemma PlaceInjective(i: nat, j: nat)
    requires i < j < i + 2 * SIZE
    ensures Place(i) != Place(j)
  {
    if i % 2 == j % 2 { SameLap(i / 2, j / 2); }
  }

  lemma SameLap(a: nat, b: nat)
    requires a < b < a + SIZE
    ensures a % SIZE != b % SIZE
  {
    assert a == SIZE * (a / SIZE) + a % SIZE;
    assert b == SIZE * (b / SIZE) + b % SIZE;
  }

  /** The copy's slots are the places of the stream words it carries. */
  lemma SlotIsPlace(base: nat, n: nat, j: nat)
    requires n < SIZE && j < 2 * n
    ensures Slot(base % SIZE, n, j) == Place(2 * base + j)
  {
    assert (2 * base + j) / 2 == base + j / 2;
    assert base == SIZE * (base / SIZE) + base % SIZE;
    var x := base % SIZE + j / 2;
    assert base + j / 2 == SIZE * (base / SIZE) + x;
    assert x == SIZE * (x / SIZE) + x % SIZE;
    Residue(base + j / 2, base / SIZE + x / SIZE, x % SIZE);
  }

  /** The true distances of the index snapshot. */
  lemma CountsAreTrue(s: State)
    requires Indices(s)
    ensures Available(s.readIdx, s.writeIdx) == Written(s) - Taken(s)
    ensures FreeSpace(s.readIdx, s.writeIdx) == SIZE - 1 - (Written(s) - Taken(s))
  {
    var w, t := Written(s), Taken(s);
    assert w == SIZE * (w / SIZE) + w % SIZE;
    assert t == SIZE * (t / SIZE) + t % SIZE;
    var q := (w / SIZE) - (t / SIZE);
    assert s.writeIdx - s.readIdx == SIZE * -q + (w - t);
    Residue(s.writeIdx - s.readIdx, -q, w - t);
    CountsAddUp(s.readIdx, s.writeIdx);
  }

  lemma Advance(base: nat, n: nat)
    ensures (base % SIZE + n) % SIZE == (base + n) % SIZE
  {
    var x := base % SIZE + n;
    assert base == SIZE * (base / SIZE) + base % SIZE;
    assert x == SIZE * (x / SIZE) + x % SIZE;
    assert base + n == SIZE * (base / SIZE + x / SIZE) + x % SIZE;
    Residue(base + n, base / SIZE + x / SIZE, x % SIZE);
  }

  lemma InitialInv()
    ensures Inv(Initial())
  {
  }

  /** The producer stores only outside the window from read_idx to the published write_idx. */
  lemma StoreOutside(s: State, j: nat)
    requires Inv(s) && Enabled(s, Store(j))
    ensures var slot := Slot(s.producer.start, s.producer.n, j);
            && slot == Place(|s.accepted| + j)
            && forall i :: |s.consumed| <= i < |s.accepted| ==> Place(i) != slot
  {
    var n := s.producer.n;
    SlotIsPlace(Written(s), n, j);
    forall i | |s.consumed| <= i < |s.accepted| ensures Place(i) != Slot(s.producer.start, n, j) {
      PlaceInjective(i, |s.accepted| + j);
    }
  }

  /** The consumer loads only inside that window, and finds the right word there. */
  lemma LoadInside(s: State, j: nat)
    requires Inv(s) && Enabled(s, Load(j))
    ensures |s.consumed| + j < |s.accepted|
    ensures Slot(s.consumer.start, s.consumer.n, j) == Place(|s.consumed| + j)
    ensures s.buffer[Slot(s.consumer.start, s.consumer.n, j)] == s.accepted[|s.consumed| + j]
  {
    SlotIsPlace(Taken(s), s.consumer.n, j);
  }

  lemma StoreKeeps(s: State, j: nat)
    requires Inv(s) && Enabled(s, Store(j))
    ensures Inv(Apply(s, Store(j)))
  {
    StoreOutside(s, j);
    var s' := Apply(s, Store(j));
    var n := s.producer.n;
    forall k | k in s'.producer.done
      ensures k < 2 * n && s'.buffer[Slot(s.producer.start, n, k)] == s.input[k]
    {
      if k != j {
        SlotIsPlace(Written(s), n, k);
        if k < j { PlaceInjective(|s.accepted| + k, |s.accepted| + j); }
        else { PlaceInjective(|s.accepted| + j, |s.accepted| + k); }
      }
    }
  }

  lemma WriteDoneKeeps(s: State)
    requires Inv(s) && Enabled(s, WriteDone)
    ensures Inv(Apply(s, WriteDone))
  {
    var s' := Apply(s, WriteDone);
    var n := s.producer.n;
    Advance(Written(s), n);
    assert Written(s') == Written(s) + n;
    forall i | |s'.consumed| <= i < |s'.accepted| ensures s'.buffer[Place(i)] == s'.accepted[i] {
      if i >= |s.accepted| {
        var j := i - |s.accepted|;
        SlotIsPlace(Written(s), n, j);
        assert j in s.producer.done;
      }
    }
  }

  lemma ReadDoneKeeps(s: State)
    requires Inv(s) && Enabled(s, ReadDone)
    ensures Inv(Apply(s, ReadDone))
  {
    var s' := Apply(s, ReadDone);
    var n := s.consumer.n;
    Advance(Taken(s), n);
    assert Taken(s') == Taken(s) + n;
    forall i | 0 <= i < |s'.consumed| ensures s'.consumed[i] == s'.accepted[i] {
      if i >= |s.consumed| {
        var j := i - |s.consumed|;
        assert j in s.consumer.done;
      } else {
        assert s.consumed[i] == s.accepted[..|s.consumed|][i];
      }
    }
  }

  lemma LookKeeps(s: State, e: Event)
    requires Inv(s) && Enabled(s, e) && (e.WriteLook? || e.ReadLook?)
    ensures Inv(Apply(s, e))
  {
    hide Held;
    CountsAreTrue(s);
    hide FreeSpace, Available;
    assert Apply(s, e).buffer == s.buffer && Apply(s, e).accepted == s.accepted && Apply(s, e).consumed == s.consumed;
    HeldAlike(s, Apply(s, e));
  }

  /** Only the buffer and the two histories decide what is held. */
  lemma HeldAlike(s: State, s': State)
    requires Indices(s) && Indices(s') && Held(s)
    requires s'.buffer == s.buffer && s'.accepted == s.accepted && s'.consumed == s.consumed
    ensures Held(s')
  {
  }

  lemma LoadKeeps(s: State, j: nat)
    requires Inv(s) && Enabled(s, Load(j))
    ensures Inv(Apply(s, Load(j)))
  {
    LoadInside(s, j);
  }

  lemma StepKeeps(s: State, e: Event)
    requires Inv(s) && Enabled(s, e)
    ensures Inv(Apply(s, e))
  {
    match e
    case WriteCall(samples, num) =>
    case WriteLook => LookKeeps(s, e);
    case Store(j) => StoreKeeps(s, j);
    case WriteDone => WriteDoneKeeps(s);
    case ReadCall(num) =>
    case ReadLook => LookKeeps(s, e);
    case Load(j) => LoadKeeps(s, j);
    case ReadDone => ReadDoneKeeps(s);
  }

  // ---------------------------------------------------------------- every interleaving

  ghost predicate CanRun(s: State, events: seq<Event>)
    requires Inv(s)
    decreases |events|
  {
    events == [] ||
    (Enabled(s, events[0]) && (StepKeeps(s, events[0]); CanRun(Apply(s, events[0]), events[1..])))
  }

  ghost function Run(s: State, events: seq<Event>): State
    requires Inv(s) && CanRun(s, events)
    decreases |events|
  {
    if events == [] then s
    else
      StepKeeps(s, events[0]);
      Run(Apply(s, events[0]), events[1..])
  }

  /** A run is its steps one after another: one step more is one step from where the run has led. */
  lemma {:induction false} RunGoesOn(s: State, events: seq<Event>, e: Event)
    requires Inv(s) && CanRun(s, events) && Inv(Run(s, events))
    ensures CanRun(s, events + [e]) <==> Enabled(Run(s, events), e)
    ensures CanRun(s, events + [e]) ==> Run(s, events + [e]) == Apply(Run(s, events), e)
    decreases |events|
  {
    hide Inv, Apply, Enabled;
    if events == [] {
      assert events + [e] == [e] && [e][1..] == [];
    } else {
      assert (events + [e])[0] == events[0] && (events + [e])[1..] == events[1..] + [e];
      StepKeeps(s, events[0]);
      RunGoesOn(Apply(s, events[0]), events[1..], e);
    }
  }

  /** In every interleaving what was read is a prefix of what was accepted, in order and with no
      word lost, repeated or torn apart; the two never drift a whole lap apart. */
  lemma {:induction false} RunIsFifo(s: State, events: seq<Event>)
    requires Inv(s) && CanRun(s, events)
    ensures var s' := Run(s, events);
            && Inv(s')
            && |s'.consumed| <= |s'.accepted|
            && s'.consumed == s'.accepted[..|s'.consumed|]
            && s.accepted <= s'.accepted && s.consumed <= s'.consumed
    decreases |events|
  {
    if events != [] {
      StepKeeps(s, events[0]);
      RunIsFifo(Apply(s, events[0]), events[1..]);
    }
  }

  // ---------------------------------------------------------------- calls go through

  function Stores(k: nat, m: nat): (e: seq<Event>)
    decreases m - k
  {
    if k >= m then [] else [Store(k)] + Stores(k + 1, m)
  }

  function Loads(k: nat, m: nat): (e: seq<Event>)
    decreases m - k
  {
    if k >= m then [] else [Load(k)] + Loads(k + 1, m)
  }

  ghost predicate UpTo(done: set<nat>, k: nat) {
    forall j: nat :: j in done <==> j < k
  }

  lemma RunFirst(s: State, e: Event, events: seq<Event>)
    requires Inv(s) && Enabled(s, e) && Inv(Apply(s, e)) && CanRun(Apply(s, e), events)
    ensures CanRun(s, [e] + events) && Run(s, [e] + events) == Run(Apply(s, e), events)
  {
    assert ([e] + events)[1..] == events;
    hide Inv, Apply, Enabled;
  }

  /** A copy the other core does not interrupt ends, and publishes the whole prefix. */
  lemma {:induction false} WriteGoesThrough(s: State, k: nat)
    requires Inv(s) && s.producer.Copy? && UpTo(s.producer.done, k) && k <= 2 * s.producer.n
    ensures var n := s.producer.n;
            var events := Stores(k, 2 * n) + [WriteDone];
            && CanRun(s, events) && 2 * n <= |s.input|
            && var s' := Run(s, events);
               && s'.accepted == s.accepted + s.input[..2 * n] && s'.producer == Idle
               && s'.consumed == s.consumed && s'.consumer == s.consumer && s'.output == s.output
    decreases 2 * s.producer.n - k
  {
    var m := 2 * s.producer.n;
    var e := if k == m then WriteDone else Store(k);
    StepKeeps(s, e);
    var s1 := Apply(s, e);
    if k == m {
      assert Stores(k, m) + [WriteDone] == [WriteDone] + [];
      hide Inv;
      RunFirst(s, e, []);
    } else {
      assert Stores(k, m) + [WriteDone] == [Store(k)] + (Stores(k + 1, m) + [WriteDone]);
      hide Inv;
      WriteGoesThrough(s1, k + 1);
      RunFirst(s, e, Stores(k + 1, m) + [WriteDone]);
    }
  }

  lemma {:induction false} ReadGoesThrough(s: State, k: nat)
    requires Inv(s) && s.consumer.Copy? && UpTo(s.consumer.done, k) && k <= 2 * s.consumer.n
    ensures var n := s.consumer.n;
            var events := Loads(k, 2 * n) + [ReadDone];
            && CanRun(s, events)
            && var s' := Run(s, events);
               && |s'.consumed| == |s.consumed| + 2 * n && s'.consumer == Idle
               && s'.accepted == s.accepted && s'.producer == s.producer && s'.input == s.input
    decreases 2 * s.consumer.n - k
  {
    var m := 2 * s.consumer.n;
    var e := if k == m then ReadDone else Load(k);
    StepKeeps(s, e);
    var s1 := Apply(s, e);
    assert |s.output| == m;
    if k == m {
      assert Loads(k, m) + [ReadDone] == [ReadDone] + [];
      hide Inv;
      RunFirst(s, e, []);
    } else {
      assert Loads(k, m) + [ReadDone] == [Load(k)] + (Loads(k + 1, m) + [ReadDone]);
      hide Inv;
      ReadGoesThrough(s1, k + 1);
      RunFirst(s, e, Loads(k + 1, m) + [ReadDone]);
    }
  }

  /** A whole call: it accepts as many of its samples as the ring has room for. */
  lemma WriteAccepts(s: State, samples: seq<s16>, num: nat)
    requires Inv(s) && s.producer.Idle? && 2 * num <= |samples|
    ensures var n := Min(num, 8191 - (Written(s) - Taken(s)));
            var events := [WriteCall(samples, num), WriteLook] + if n == 0 then [] else Stores(0, 2 * n) + [WriteDone];
            CanRun(s, events) && Run(s, events).accepted == s.accepted + samples[..2 * n] && Run(s, events).producer == Idle
  {
    var n := Min(num, 8191 - (Written(s) - Taken(s)));
    var tail := if n == 0 then [] else Stores(0, 2 * n) + [WriteDone];
    StepKeeps(s, WriteCall(samples, num));
    var s1 := Apply(s, WriteCall(samples, num));
    StepKeeps(s1, WriteLook);
    var s2 := Apply(s1, WriteLook);
    AcceptsWhatFits(s1);
    if n > 0 { WriteGoesThrough(s2, 0); }
    assert [WriteCall(samples, num), WriteLook] + tail == [WriteCall(samples, num)] + ([WriteLook] + tail);
    hide Inv;
    RunFirst(s1, WriteLook, tail);
    RunFirst(s, WriteCall(samples, num), [WriteLook] + tail);
  }

  /** A whole call: it takes as many samples as were asked for and published. */
  lemma ReadTakes(s: State, num: nat)
    requires Inv(s) && s.consumer.Idle?
    ensures var n := Min(num, Written(s) - Taken(s));
            var events := [ReadCall(num), ReadLook] + if n == 0 then [] else Loads(0, 2 * n) + [ReadDone];
            && CanRun(s, events) && |s.consumed| + 2 * n <= |s.accepted|
            && Run(s, events).consumed == s.accepted[..|s.consumed| + 2 * n] && Run(s, events).consumer == Idle
  {
    var n := Min(num, Written(s) - Taken(s));
    var tail := if n == 0 then [] else Loads(0, 2 * n) + [ReadDone];
    StepKeeps(s, ReadCall(num));
    var s1 := Apply(s, ReadCall(num));
    StepKeeps(s1, ReadLook);
    var s2 := Apply(s1, ReadLook);
    TakesWhatIsThere(s1);
    if n > 0 { ReadGoesThrough(s2, 0); }
    assert [ReadCall(num), ReadLook] + tail == [ReadCall(num)] + ([ReadLook] + tail);
    hide Inv;
    RunFirst(s1, ReadLook, tail);
    RunFirst(s, ReadCall(num), [ReadLook] + tail);
    InvMeans(s);
    RunIsFifo(s, [ReadCall(num), ReadLook] + tail);
  }

  lemma InvMeans(s: State)
    requires Inv(s)
    ensures |s.consumed| <= |s.accepted| && s.consumed == s.accepted[..|s.consumed|]
    ensures |s.consumed| % 2 == 0 && |s.accepted| % 2 == 0
  {
  }

  /** What can happen from Init on, and where it leads. */
  ghost predicate Possible(events: seq<Event>) {
    InitialInv();
    CanRun(Initial(), events)
  }

  ghost function Reached(events: seq<Event>): State
    requires Possible(events)
  {
    InitialInv();
    Run(Initial(), events)
  }

  /** So all that was ever read is a prefix of all that was ever accepted, and the producer is ahead of
      the consumer by less than a lap. */
  lemma StreamIsFifo(events: seq<Event>)
    requires Possible(events)
    ensures var s := Reached(events);
            && |s.consumed| <= |s.accepted| && s.consumed == s.accepted[..|s.consumed|]
            && Written(s) - Taken(s) < SIZE
            && Available(s.readIdx, s.writeIdx) == Written(s) - Taken(s)
  {
    InitialInv();
    RunIsFifo(Initial(), events);
    CountsAreTrue(Reached(events));
  }

  /** A call accepts the prefix that fits when it looks: as many samples as the ring had room for,
      counted with whatever the consumer had published by then. */
  lemma AcceptsWhatFits(s: State)
    requires Inv(s) && Enabled(s, WriteLook)
    ensures var n := Min(s.producer.num, SIZE - 1 - (Written(s) - Taken(s)));
            var s' := Apply(s, WriteLook);
            if n == 0 then s'.producer == Idle else s'.producer == Copy(s.writeIdx, n, {})
    ensures var n := Min(s.producer.num, SIZE - 1 - (Written(s) - Taken(s)));
            2 * n <= |s.input|
  {
    CountsAreTrue(s);
  }

  /** A call carries its own samples and count, and changes nothing else. */
  lemma CallsCarry(s: State, samples: seq<s16>, num: nat)
    requires Inv(s)
    ensures Enabled(s, WriteCall(samples, num)) ==> Apply(s, WriteCall(samples, num)) == s.(producer := Look(num), input := samples)
    ensures Enabled(s, ReadCall(num)) ==> Apply(s, ReadCall(num)) == s.(consumer := Look(num))
  {
    hide Inv;
  }

  /** A read takes as many samples as were published when it looked, up to what it asked for, and delivers
      as many: the next ones of the stream. */
  lemma TakesWhatIsThere(s: State)
    requires Inv(s) && Enabled(s, ReadLook)
    ensures var n := Min(s.consumer.num, Written(s) - Taken(s));
            var s' := Apply(s, ReadLook);
            && (if n == 0 then s'.consumer == Idle else s'.consumer == Copy(s.readIdx, n, {}) && |s'.output| == 2 * n)
            && s' == s.(consumer := s'.consumer, output := s'.output)
  {
    CountsAreTrue(s);
  }

  lemma DeliversNext(s: State)
    requires Inv(s) && Enabled(s, ReadDone)
    ensures var n, s' := s.consumer.n, Apply(s, ReadDone);
            && |s.consumed| + 2 * n <= |s.accepted| && s'.consumed == s.accepted[..|s.consumed| + 2 * n]
            && Taken(s') == Taken(s) + n && s'.consumer.Idle?
            && FreeSpace(s'.readIdx, s'.writeIdx) == FreeSpace(s.readIdx, s.writeIdx) + n
  {
    StepKeeps(s, ReadDone);
    CountsAreTrue(s);
    CountsAreTrue(Apply(s, ReadDone));
  }

  /** Once every word went over, publishing appends exactly that prefix of the call's samples. */
  lemma PublishesPrefix(s: State)
    requires Inv(s) && Enabled(s, WriteDone)
    ensures Apply(s, WriteDone).accepted == s.accepted + s.input[..2 * s.producer.n]
    ensures Available(s.readIdx, Apply(s, WriteDone).writeIdx) == Written(s) - Taken(s) + s.producer.n
  {
    StepKeeps(s, WriteDone);
    CountsAreTrue(Apply(s, WriteDone));
  }
}
