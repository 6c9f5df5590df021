/** Rings of a fixed size that always keep one place free, and the bounded queues they stand for. */
module LogQueue {
  import opened Basics

  // ---------------------------------------------------------------- rings

  function Wrapped(i: nat, size: nat): nat { if i < size then i else i - size }

  /** How many entries lie between the two indices. */
  function Len(inPtr: nat, outPtr: nat, size: nat): (n: int)
    requires inPtr < size && outPtr < size
    ensures 0 <= n < size
  {
    if inPtr >= outPtr then inPtr - outPtr else inPtr - outPtr + size
  }

  /** The `n` entries from `outPtr` on, around the end. */
  function Window<T>(buf: seq<T>, outPtr: nat, n: nat): (w: seq<T>)
    requires outPtr < |buf| && n <= |buf|
    ensures |w| == n && forall i :: 0 <= i < n ==> w[i] == buf[Wrapped(outPtr + i, |buf|)]
  {
    seq(n, i requires 0 <= i < n => buf[Wrapped(outPtr + i, |buf|)])
  }

  /** Storing at the in pointer adds an entry at the end. */
  lemma Stored<T>(buf: seq<T>, inPtr: nat, outPtr: nat, x: T)
    requires inPtr < |buf| && outPtr < |buf|
    ensures var n := Len(inPtr, outPtr, |buf|);
            Window(buf[inPtr := x], outPtr, n + 1) == Window(buf, outPtr, n) + [x]
  {
    var n := Len(inPtr, outPtr, |buf|);
    var a, b := Window(buf[inPtr := x], outPtr, n + 1), Window(buf, outPtr, n) + [x];
    forall i | 0 <= i < n + 1 ensures a[i] == b[i] { }
  }

  /** Moving the out pointer on takes the oldest entry away. */
  lemma TakenOff<T>(buf: seq<T>, outPtr: nat, n: nat)
    requires outPtr < |buf| && 0 < n <= |buf|
    ensures Window(buf, outPtr, n)[0] == buf[outPtr]
    ensures Window(buf, Wrapped(outPtr + 1, |buf|), n - 1) == Window(buf, outPtr, n)[1..]
  {
    var a, b := Window(buf, Wrapped(outPtr + 1, |buf|), n - 1), Window(buf, outPtr, n)[1..];
    forall i | 0 <= i < n - 1 ensures a[i] == b[i] {
      assert b[i] == Window(buf, outPtr, n)[i + 1];
    }
  }

  // ---------------------------------------------------------------- the text queue

  /** The text without carriage returns. */
  function Stripped(s: string): string {
    if s == "" then "" else (if s[0] == '\r' then "" else [s[0]]) + Stripped(s[1..])
  }

  /** Nothing but the carriage returns goes. */
  lemma {:induction false} StrippedParts(a: string, b: string)
    ensures Stripped(a + b) == Stripped(a) + Stripped(b)
    ensures Stripped("\r") == "" && ('\r' !in a ==> Stripped(a) == a)
  {
    LoneReturn();
    if a == "" {
      assert a + b == b;
    } else {
      StrippedParts(a[1..], b);
      StrippedFirst(a, b);
    }
  }

  lemma LoneReturn()
    ensures Stripped("\r") == ""
  {
  }

  lemma StrippedFirst(a: string, b: string)
    requires a != ""
    ensures Stripped(a + b) == (if a[0] == '\r' then "" else [a[0]]) + Stripped(a[1..] + b)
    ensures a[1..] != a && a == [a[0]] + a[1..] && ('\r' !in a ==> a[0] != '\r' && '\r' !in a[1..])
  {
    assert (a + b)[1..] == a[1..] + b;
  }

  /** The last `n` characters. */
  function Last(s: string, n: nat): (t: string)
    ensures |t| == if |s| <= n then |s| else n
  {
    if |s| <= n then s else s[|s| - n..]
  }

  function Front(s: string, n: nat): string {
    if |s| <= n then s else s[..n]
  }

  /** A bounded queue: writing keeps the newest characters, or as many of the new ones as fit. */
  function Written(q: string, text: string, capacity: nat, overwrite: bool): string {
    if overwrite then Last(q + Stripped(text), capacity) else Front(q + Stripped(text), capacity)
  }

  lemma LastOfLast(q: string, s: string, n: nat)
    ensures Last(Last(q, n) + s, n) == Last(q + s, n)
  {
    var t := Last(q, n);
    if |q| > n {
      assert q + s == q[..|q| - n] + (t + s);
    }
  }

  // ---------------------------------------------------------------- every run

  datatype Op = Write(text: string) | Read(count: nat, clear: bool)

  /** The queue; all text ever written, stripped; all text ever accepted; how much of the written text
      was cleared or lost to clearing, and everything a clearing read returned. */
  datatype Log = Log(q: string, all: string, accepted: string, cleared: nat, out: string)

  const EMPTY := Log("", "", "", 0, "")

  function Step(l: Log, op: Op, capacity: nat, overwrite: bool): Log {
    match op
    case Write(text) =>
      var q' := Written(l.q, text, capacity, overwrite);
      Log(q', l.all + Stripped(text),
          if overwrite then l.accepted + Stripped(text) else l.accepted + q'[Min(|l.q|, |q'|)..], l.cleared, l.out)
    case Read(count, clear) =>
      var n := Min(count, |l.q|);
      if !clear then l
      else l.(q := l.q[n..], cleared := Max(0, |l.all| - |l.q| + n), out := l.out + l.q[..n])
  }

  function Max(a: int, b: int): nat
    requires a >= 0 || b >= 0
  {
    if a < b then b else a
  }

  function Run(ops: seq<Op>, capacity: nat, overwrite: bool): Log {
    if ops == [] then EMPTY else Step(Run(ops[..|ops| - 1], capacity, overwrite), ops[|ops| - 1], capacity, overwrite)
  }

  /** All that the writes of a run carry, told from the front. */
  function Texts(ops: seq<Op>): string {
    if ops == [] then "" else (if ops[0].Write? then Stripped(ops[0].text) else "") + Texts(ops[1..])
  }

  lemma {:induction false} TextsNext(ops: seq<Op>)
    requires ops != []
    ensures Texts(ops) == Texts(ops[..|ops| - 1]) + (if ops[|ops| - 1].Write? then Stripped(ops[|ops| - 1].text) else "")
  {
    hide Stripped, Texts;
    TextsFirst(ops);
    if |ops| == 1 {
      assert ops[1..] == [] && ops[..0] == [];
      NoTexts();
    } else {
      TextsNext(ops[1..]);
      TextsFirst(ops[..|ops| - 1]);
      assert ops[1..][..|ops| - 2] == ops[..|ops| - 1][1..];
    }
  }

  lemma NoTexts()
    ensures Texts([]) == ""
  {
  }

  lemma TextsFirst(ops: seq<Op>)
    requires ops != []
    ensures Texts(ops) == (if ops[0].Write? then Stripped(ops[0].text) else "") + Texts(ops[1..])
  {
    hide Stripped;
  }

  lemma {:induction false} RunWrites(ops: seq<Op>, capacity: nat, overwrite: bool)
    ensures Run(ops, capacity, overwrite).all == Texts(ops)
  {
    hide Stripped, Written;
    if ops != [] {
      RunWrites(ops[..|ops| - 1], capacity, overwrite);
      TextsNext(ops);
    }
  }

  /** Where the text still held begins in all the text written. */
  function Start(l: Log, capacity: nat): nat {
    Max(l.cleared, |l.all| - capacity)
  }

  /** With overwriting, the queue always holds the most recent characters that were not cleared: all of
      them, or as many as there is room for. */
  lemma {:induction false} HoldsMostRecent(ops: seq<Op>, capacity: nat)
    ensures var l := Run(ops, capacity, true);
            && l.cleared <= |l.all| && |l.q| <= capacity && l.accepted == l.all
            && Start(l, capacity) <= |l.all| && l.q == l.all[Start(l, capacity)..]
    decreases |ops|
  {
    if ops != [] {
      HoldsMostRecent(ops[..|ops| - 1], capacity);
      var l, op := Run(ops[..|ops| - 1], capacity, true), ops[|ops| - 1];
      if op.Write? { WriteHolds(l, op.text, capacity); } else { ReadHolds(l, op.count, op.clear, capacity); }
    }
  }

  ghost predicate Recent(l: Log, capacity: nat) {
    && l.cleared <= |l.all| && |l.q| <= capacity
    && Start(l, capacity) <= |l.all| && l.q == l.all[Start(l, capacity)..]
  }

  lemma WriteHolds(l: Log, text: string, capacity: nat)
    requires Recent(l, capacity)
    ensures Recent(Step(l, Write(text), capacity, true), capacity)
  {
    hide Stripped;
    var s, k := Stripped(text), Start(l, capacity);
    var l' := Step(l, Write(text), capacity, true);
    assert l.q + s == (l.all + s)[k..];
    assert |l'.q| == |l'.all| - Start(l', capacity);
    assert l'.q == l'.all[Start(l', capacity)..];
  }

  lemma ReadHolds(l: Log, count: nat, clear: bool, capacity: nat)
    requires Recent(l, capacity)
    ensures Recent(Step(l, Read(count, clear), capacity, true), capacity)
  {
    if clear {
      var n := Min(count, |l.q|);
      assert l.q[n..] == l.all[Start(l, capacity) + n..];
    }
  }

  /** Without overwriting, what was read and what is still held is exactly what was accepted, in order;
      and nothing is held beyond the capacity. */
  lemma {:induction false} KeepsOrder(ops: seq<Op>, capacity: nat)
    ensures var l := Run(ops, capacity, false);
            |l.q| <= capacity && l.out + l.q == l.accepted
    decreases |ops|
  {
    if ops != [] {
      KeepsOrder(ops[..|ops| - 1], capacity);
      var l, op := Run(ops[..|ops| - 1], capacity, false), ops[|ops| - 1];
      match op
      case Write(text) =>
        AcceptsWhatFits(l.q, text, capacity);
        assert l.out + (l.q + Front(Stripped(text), capacity - |l.q|)) == l.accepted + Front(Stripped(text), capacity - |l.q|);
      case Read(count, clear) =>
        var n := Min(count, |l.q|);
        assert l.q == l.q[..n] + l.q[n..];
    }
  }

  /** Only a clearing read takes anything, and what it takes it returns: the oldest characters, as many as
      it asks for. */
  lemma ReadTakes(l: Log, count: nat, clear: bool, capacity: nat, overwrite: bool)
    ensures var l' := Step(l, Read(count, clear), capacity, overwrite);
            && l'.out + l'.q == l.out + l.q && l'.all == l.all && l'.accepted == l.accepted
            && |l'.out| == |l.out| + if clear then Min(count, |l.q|) else 0
  {
    var n := Min(count, |l.q|);
    assert (l.out + l.q[..n]) + l.q[n..] == l.out + l.q;
  }

  /** A write without overwriting drops only what does not fit: it accepts the longest prefix there is
      room for. */
  lemma AcceptsWhatFits(q: string, text: string, capacity: nat)
    requires |q| <= capacity
    ensures var q' := Written(q, text, capacity, false);
            && q' == q + Front(Stripped(text), capacity - |q|)
            && Min(|q|, |q'|) == |q| && q'[|q|..] == Front(Stripped(text), capacity - |q|)
  {
    var s := Stripped(text);
    if |q + s| > capacity { assert (q + s)[..capacity] == q + s[..capacity - |q|]; }
  }

  // ---------------------------------------------------------------- the event queue

  /** Events by the order of their allocation: those queued, and those deleted so far. */
  datatype Events = Events(queue: seq<nat>, deleted: seq<nat>, created: nat)

  datatype EventOp = Report | Fetch

  function EventStep(e: Events, op: EventOp, capacity: nat): Events {
    match op
    case Report =>
      var q := e.queue + [e.created];
      if |q| > capacity then Events(q[1..], e.deleted + [q[0]], e.created + 1) else Events(q, e.deleted, e.created + 1)
    case Fetch =>
      if e.queue == [] then e else Events(e.queue[1..], e.deleted + [e.queue[0]], e.created)
  }

  /** A fetch deletes the oldest event and no other; a report deletes one exactly when the queue was full. */
  lemma DeletesOne(e: Events, op: EventOp, capacity: nat)
    requires |e.queue| <= capacity
    ensures var e' := EventStep(e, op, capacity);
            var gone := if op.Fetch? then Min(|e.queue|, 1) else if |e.queue| == capacity then 1 else 0;
            && e'.deleted + e'.queue == e.deleted + e.queue + (if op.Fetch? then [] else [e.created])
            && |e'.deleted| == |e.deleted| + gone && |e'.queue| == |e.queue| - gone + (if op.Fetch? then 0 else 1)
  {
    var q := e.queue + if op.Fetch? then [] else [e.created];
    if q != [] { assert e.deleted + [q[0]] + q[1..] == e.deleted + q; }
    assert e.deleted + e.queue + (if op.Fetch? then [] else [e.created]) == e.deleted + q;
  }

  function EventRun(ops: seq<EventOp>, capacity: nat): Events {
    if ops == [] then Events([], [], 0) else EventStep(EventRun(ops[..|ops| - 1], capacity), ops[|ops| - 1], capacity)
  }

  /** Every report of a run creates an event. */
  lemma {:induction false} EachReported(ops: seq<EventOp>, capacity: nat)
    ensures EventRun(ops, capacity).created == multiset(ops)[Report]
    decreases |ops|
  {
    if ops != [] {
      EachReported(ops[..|ops| - 1], capacity);
      assert ops == ops[..|ops| - 1] + [ops[|ops| - 1]];
    }
  }

  /** Every event is queued or was deleted exactly once, in the order of creation; only the oldest is
      ever dropped. */
  lemma {:induction false} DeletedOnce(ops: seq<EventOp>, capacity: nat)
    ensures var e := EventRun(ops, capacity);
            && |e.queue| <= capacity
            && e.deleted + e.queue == seq(e.created, i => i)
    decreases |ops|
  {
    if ops != [] {
      DeletedOnce(ops[..|ops| - 1], capacity);
      var e, op := EventRun(ops[..|ops| - 1], capacity), ops[|ops| - 1];
      assert seq(e.created + 1, i => i) == seq(e.created, i => i) + [e.created];
      if op == Report {
        var q := e.queue + [e.created];
        assert e.deleted + q == seq(e.created + 1, i => i);
        if |q| > capacity { assert (e.deleted + [q[0]]) + q[1..] == e.deleted + q; }
      } else if e.queue != [] {
        assert (e.deleted + [e.queue[0]]) + e.queue[1..] == e.deleted + e.queue;
      }
    }
  }
}
