/** CLogger's text ring and event ring, updated in place. */
module Logger {
  import opened Basics
  import opened LogQueue

  const LOGGER_BUFSIZE: nat := 0x4000
  const CAPACITY: nat := LOGGER_BUFSIZE - 1
  const LOG_QUEUE_SIZE: nat := 50

  class CLogger {
    const overwriteOldest: bool
    const buffer: array<char>
    var inPtr: nat
    var outPtr: nat
    const eventQueue: array<nat>      // events by the number of their allocation
    var eventInPtr: nat
    var eventOutPtr: nat
    var created: nat                  // allocations so far
    ghost var deleted: seq<nat>

    ghost predicate Valid()
      reads this
    {
      && buffer.Length == LOGGER_BUFSIZE && inPtr < LOGGER_BUFSIZE && outPtr < LOGGER_BUFSIZE
      && eventQueue.Length == LOG_QUEUE_SIZE && eventInPtr < LOG_QUEUE_SIZE && eventOutPtr < LOG_QUEUE_SIZE
    }

    /** The text held, oldest first. */
    ghost function Text(): (q: string)
      reads this, buffer
      requires Valid()
      ensures |q| <= CAPACITY
    {
      Window(buffer[..], outPtr, Len(inPtr, outPtr, LOGGER_BUFSIZE))
    }

    ghost function Queue(): Events
      reads this, eventQueue
      requires Valid()
    {
      Events(Window(eventQueue[..], eventOutPtr, Len(eventInPtr, eventOutPtr, LOG_QUEUE_SIZE)), deleted, created)
    }

    constructor (overwriteOldest: bool)
      ensures Valid() && Text() == "" && Queue() == Events([], [], 0)
      ensures this.overwriteOldest == overwriteOldest && fresh(buffer) && fresh(eventQueue)
    {
      this.overwriteOldest := overwriteOldest;
      buffer := new char[LOGGER_BUFSIZE](_ => '\0');
      eventQueue := new nat[LOG_QUEUE_SIZE](_ => 0);
      inPtr, outPtr, eventInPtr, eventOutPtr, created, deleted := 0, 0, 0, 0, 0, [];
    }

    /** Stores one character; false when it did not fit. */
    method Put(c: char) returns (stored: bool)
      requires Valid()
      modifies this`inPtr, this`outPtr, buffer
      ensures Valid()
      ensures stored <==> overwriteOldest || |old(Text())| < CAPACITY
      ensures Text() == if overwriteOldest then Last(old(Text()) + [c], CAPACITY)
                        else if stored then old(Text()) + [c] else old(Text())
    {
      hide Window, Len;
      ghost var o, before, n := outPtr, inPtr, Len(inPtr, outPtr, LOGGER_BUFSIZE);
      NextIndex(inPtr);
      NextIndex(outPtr);
      LenNext(inPtr, outPtr);
      Append(c);
      if inPtr == outPtr {
        if overwriteOldest {
          TakenOff(buffer[..], o, n + 1);
          outPtr := (outPtr + 1) % LOGGER_BUFSIZE;
        } else {
          StepBack(before);
          inPtr := (inPtr - 1) % U32 % LOGGER_BUFSIZE;
          return false;
        }
      }
      return true;
    }

    /** Stores at the in pointer and moves it on. */
    method Append(c: char)
      requires Valid()
      modifies this`inPtr, buffer
      ensures Valid() && inPtr == Wrapped(old(inPtr) + 1, LOGGER_BUFSIZE)
      ensures (inPtr - 1) % U32 % LOGGER_BUFSIZE == old(inPtr)
      ensures var n := Len(old(inPtr), outPtr, LOGGER_BUFSIZE);
              && Window(buffer[..], outPtr, n + 1) == old(Text()) + [c]
              && Window(buffer[..], outPtr, n) == old(Text())
    {
      hide Window;
      Stored(buffer[..], inPtr, outPtr, c);
      WindowAlike(buffer[..], inPtr, outPtr, c);
      NextIndex(inPtr);
      PreviousIndex(inPtr);
      buffer[inPtr] := c;
      inPtr := (inPtr + 1) % LOGGER_BUFSIZE;
    }

    method Write(text: string)
      requires Valid()
      modifies this`inPtr, this`outPtr, buffer
      ensures Valid()
      ensures Text() == Written(old(Text()), text, 0x3fff, overwriteOldest)
    {
      hide Stripped, Window, Last;
      ghost var q := Text();
      var i := 0;
      NothingWritten(q, CAPACITY, overwriteOldest);
      assert text[..0] == "";
      while i < |text|
        invariant i <= |text| && Valid() && Text() == Written(q, text[..i], CAPACITY, overwriteOldest)
      {
        var c := text[i];
        WrittenNext(q, text, i, CAPACITY, overwriteOldest);
        i := i + 1;
        if c == '\r' { continue; }
        var stored := Put(c);
        if !stored {
          WrittenFull(q, text, i - 1, CAPACITY);
          return;
        }
      }
      assert text[..i] == text;
    }

    method Read(out: array<char>, count: nat, clear: bool) returns (n: nat)
      requires Valid() && out != buffer && count <= out.Length
      modifies this`outPtr, out
      ensures Valid() && n == Min(count, |old(Text())|)
      ensures out[..] == old(Text())[..n] + old(out[..])[n..]
      ensures Text() == if clear then old(Text())[n..] else old(Text())
    {
      hide Window, Len, Wrapped;
      ghost var q := Text();
      n := 0;
      LenZero(inPtr, outPtr);
      if inPtr == outPtr {
        assert out[..] == old(out[..])[0..];
        return;
      }
      var nOutPtr := outPtr;
      while n < count
        invariant n <= count && n < |q| && outPtr == old(outPtr)
        invariant nOutPtr == Wrapped(outPtr + n, LOGGER_BUFSIZE) < LOGGER_BUFSIZE
        invariant forall k :: 0 <= k < out.Length ==> out[k] == if k < n then q[k] else old(out[k])
        invariant buffer[..] == old(buffer[..])
      {
        WindowAt(buffer[..], outPtr, |q|, n);
        out[n] := buffer[nOutPtr];
        NextIndex(nOutPtr);
        NextOut(inPtr, outPtr, n);
        nOutPtr := (nOutPtr + 1) % LOGGER_BUFSIZE;
        n := n + 1;
        if inPtr == nOutPtr { break; }
      }
      assert out[..] == q[..n] + old(out[..])[n..];
      if clear {
        WindowBehind(buffer[..], outPtr, |q|, n);
        LenDown(inPtr, outPtr, n);
        outPtr := nOutPtr;
      }
    }

    /** A new event; when the queue is full the oldest one is dropped. */
    method WriteEvent()
      requires Valid()
      modifies this`eventInPtr, this`eventOutPtr, this`created, this`deleted, eventQueue
      ensures Valid() && Queue() == EventStep(old(Queue()), Report, 49)
    {
      hide Window, EventStep, Len;
      ghost var n, e := Len(eventInPtr, eventOutPtr, LOG_QUEUE_SIZE), Queue();
      EventLenNext(eventInPtr, eventOutPtr);
      Enqueue();
      EventStepIs(e, LOG_QUEUE_SIZE - 1);
      if eventInPtr == eventOutPtr {
        TakenOff(eventQueue[..], eventOutPtr, n + 1);
        deleted := deleted + [eventQueue[eventOutPtr]];
        eventOutPtr := eventOutPtr + 1;
        if eventOutPtr == LOG_QUEUE_SIZE { eventOutPtr := 0; }
      }
    }

    /** Stores the new event at the in pointer and moves it on. */
    method Enqueue()
      requires Valid()
      modifies this`eventInPtr, this`created, eventQueue
      ensures Valid() && created == old(created) + 1 && eventInPtr == Wrapped(old(eventInPtr) + 1, LOG_QUEUE_SIZE)
      ensures var n := Len(old(eventInPtr), eventOutPtr, LOG_QUEUE_SIZE);
              Window(eventQueue[..], eventOutPtr, n + 1) == old(Queue()).queue + [old(created)]
    {
      hide Window;
      var event := created;
      created := created + 1;
      Stored(eventQueue[..], eventInPtr, eventOutPtr, event);
      eventQueue[eventInPtr] := event;
      eventInPtr := eventInPtr + 1;
      if eventInPtr == LOG_QUEUE_SIZE { eventInPtr := 0; }
    }

    method ReadEvent() returns (event: nat, got: bool)
      requires Valid()
      modifies this`eventOutPtr, this`deleted
      ensures Valid() && Queue() == EventStep(old(Queue()), Fetch, 49)
      ensures got <==> old(Queue()).queue != []
      ensures got ==> event == old(Queue()).queue[0]
    {
      if eventInPtr == eventOutPtr { return 0, false; }
      hide Window;
      TakenOff(eventQueue[..], eventOutPtr, Len(eventInPtr, eventOutPtr, LOG_QUEUE_SIZE));
      event, got := eventQueue[eventOutPtr], true;
      eventOutPtr := eventOutPtr + 1;
      if eventOutPtr == LOG_QUEUE_SIZE { eventOutPtr := 0; }
      deleted := deleted + [event];
    }
  }

  lemma NextIndex(i: nat)
    requires i < LOGGER_BUFSIZE
    ensures (i + 1) % LOGGER_BUFSIZE == Wrapped(i + 1, LOGGER_BUFSIZE) < LOGGER_BUFSIZE
  {
  }

  lemma StepBack(i: nat)
    requires i < LOGGER_BUFSIZE
    ensures (Wrapped(i + 1, LOGGER_BUFSIZE) - 1) % U32 % LOGGER_BUFSIZE == i
  {
  }

  lemma LenNext(inPtr: nat, outPtr: nat)
    requires inPtr < LOGGER_BUFSIZE && outPtr < LOGGER_BUFSIZE
    ensures var n, i := Len(inPtr, outPtr, LOGGER_BUFSIZE), Wrapped(inPtr + 1, LOGGER_BUFSIZE);
            && (i == outPtr <==> n == CAPACITY)
            && (n < CAPACITY ==> Len(i, outPtr, LOGGER_BUFSIZE) == n + 1)
            && (n == CAPACITY ==> Len(i, Wrapped(outPtr + 1, LOGGER_BUFSIZE), LOGGER_BUFSIZE) == n)
  {
  }

  lemma EventLenNext(inPtr: nat, outPtr: nat)
    requires inPtr < LOG_QUEUE_SIZE && outPtr < LOG_QUEUE_SIZE
    ensures var n, i := Len(inPtr, outPtr, LOG_QUEUE_SIZE), Wrapped(inPtr + 1, LOG_QUEUE_SIZE);
            && (i == outPtr <==> n == LOG_QUEUE_SIZE - 1)
            && (n < LOG_QUEUE_SIZE - 1 ==> Len(i, outPtr, LOG_QUEUE_SIZE) == n + 1)
            && (n == LOG_QUEUE_SIZE - 1 ==> Len(i, Wrapped(outPtr + 1, LOG_QUEUE_SIZE), LOG_QUEUE_SIZE) == n)
  {
  }

  lemma EventStepIs(e: Events, capacity: nat)
    ensures EventStep(e, Report, capacity) ==
            var q := e.queue + [e.created];
            if |q| > capacity then Events(q[1..], e.deleted + [q[0]], e.created + 1) else Events(q, e.deleted, e.created + 1)
  {
  }

  lemma LenZero(inPtr: nat, outPtr: nat)
    requires inPtr < LOGGER_BUFSIZE && outPtr < LOGGER_BUFSIZE
    ensures Len(inPtr, outPtr, LOGGER_BUFSIZE) == 0 <==> inPtr == outPtr
    ensures Wrapped(outPtr, LOGGER_BUFSIZE) == outPtr
  {
  }

  lemma NextOut(inPtr: nat, outPtr: nat, n: nat)
    requires inPtr < LOGGER_BUFSIZE && outPtr < LOGGER_BUFSIZE && n < Len(inPtr, outPtr, LOGGER_BUFSIZE)
    ensures var i := Wrapped(Wrapped(outPtr + n, LOGGER_BUFSIZE) + 1, LOGGER_BUFSIZE);
            && i == Wrapped(outPtr + (n + 1), LOGGER_BUFSIZE)
            && (i == inPtr <==> n + 1 == Len(inPtr, outPtr, LOGGER_BUFSIZE))
  {
  }

  lemma LenDown(inPtr: nat, outPtr: nat, n: nat)
    requires inPtr < LOGGER_BUFSIZE && outPtr < LOGGER_BUFSIZE && n <= Len(inPtr, outPtr, LOGGER_BUFSIZE)
    ensures Wrapped(outPtr + n, LOGGER_BUFSIZE) < LOGGER_BUFSIZE
    ensures Len(inPtr, Wrapped(outPtr + n, LOGGER_BUFSIZE), LOGGER_BUFSIZE) == Len(inPtr, outPtr, LOGGER_BUFSIZE) - n
  {
  }

  /** The decrement wraps around in 32 bits, of which the buffer size is a divisor. */
  lemma PreviousIndex(i: nat)
    requires i < LOGGER_BUFSIZE
    ensures (Wrapped(i + 1, LOGGER_BUFSIZE) - 1) % U32 % LOGGER_BUFSIZE == i
  {
    if i + 1 == LOGGER_BUFSIZE { assert -1 % U32 == U32 - 1 && (U32 - 1) % LOGGER_BUFSIZE == i; }
  }

  lemma WindowAt<T>(buf: seq<T>, outPtr: nat, n: nat, i: nat)
    requires outPtr < |buf| && i < n <= |buf|
    ensures Window(buf, outPtr, n)[i] == buf[Wrapped(outPtr + i, |buf|)]
  {
  }

  /** A store at the in pointer leaves the window as it was. */
  lemma WindowAlike<T>(buf: seq<T>, inPtr: nat, outPtr: nat, x: T)
    requires inPtr < |buf| && outPtr < |buf|
    ensures var n := Len(inPtr, outPtr, |buf|);
            Window(buf[inPtr := x], outPtr, n) == Window(buf, outPtr, n)
  {
  }

  lemma {:induction false} WindowBehind<T>(buf: seq<T>, outPtr: nat, total: nat, n: nat)
    requires outPtr < |buf| && n <= total < |buf|
    ensures Window(buf, Wrapped(outPtr + n, |buf|), total - n) == Window(buf, outPtr, total)[n..]
  {
    var a, b := Window(buf, Wrapped(outPtr + n, |buf|), total - n), Window(buf, outPtr, total)[n..];
    forall i | 0 <= i < total - n ensures a[i] == b[i] {
      assert b[i] == Window(buf, outPtr, total)[n + i];
    }
  }

  lemma NothingWritten(q: string, capacity: nat, overwrite: bool)
    requires |q| <= capacity
    ensures Written(q, "", capacity, overwrite) == q
  {
  }

  lemma {:induction false} StrippedNext(text: string, i: nat)
    requires i < |text|
    ensures Stripped(text[..i + 1]) == Stripped(text[..i]) + if text[i] == '\r' then "" else [text[i]]
    decreases i
  {
    var a, b := text[..i + 1], text[..i];
    if i > 0 {
      StrippedNext(text[1..], i - 1);
      assert a[1..] == text[1..][..i] && b[1..] == text[1..][..i - 1];
    } else {
      assert a[1..] == "";
    }
  }

  lemma WrittenNext(q: string, text: string, i: nat, capacity: nat, overwrite: bool)
    requires i < |text|
    ensures var w, c := Written(q, text[..i], capacity, overwrite), text[i];
            Written(q, text[..i + 1], capacity, overwrite) ==
            if c == '\r' then w else if overwrite then Last(w + [c], capacity) else Front(w + [c], capacity)
  {
    hide Stripped;
    var s, c := q + Stripped(text[..i]), text[i];
    StrippedNext(text, i);
    if c == '\r' {
      assert q + Stripped(text[..i + 1]) == s;
    } else {
      assert q + Stripped(text[..i + 1]) == s + [c];
      LastOfLast(s, [c], capacity);
    }
  }

  lemma {:induction false} StrippedGrows(text: string, i: nat)
    requires i <= |text|
    ensures Stripped(text[..i]) <= Stripped(text)
    decreases |text| - i
  {
    if i < |text| {
      StrippedNext(text, i);
      StrippedGrows(text, i + 1);
    } else {
      assert text[..i] == text;
    }
  }

  /** Once a character did not fit, no later one does. */
  lemma WrittenFull(q: string, text: string, i: nat, capacity: nat)
    requires i < |text| && |Written(q, text[..i], capacity, false)| >= capacity
    ensures Written(q, text, capacity, false) == Written(q, text[..i], capacity, false)
  {
    hide Stripped;
    StrippedGrows(text, i);
    var s, t := q + Stripped(text[..i]), q + Stripped(text);
    assert s <= t;
  }
}
