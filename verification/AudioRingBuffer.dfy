/** AudioRingBuffer's calls in place, one at a time: a bounded queue of SIZE - 1 samples. */
module AudioRingBuffer {
  import opened Basics
  import opened AudioRing

  /** The words of `n` samples from stereo slot `r` on, wrapping around. */
  function Window(buf: seq<s16>, r: nat, n: nat): (w: seq<s16>)
    requires |buf| == 2 * SIZE
    ensures |w| == 2 * n && forall i :: 0 <= i < 2 * n ==> w[i] == buf[Place(2 * r + i)]
  {
    seq(2 * n, i requires 0 <= i => buf[Place(2 * r + i)])
  }

  method MemCpy(dst: array<s16>, d: nat, src: array<s16>, s: nat, len: nat)
    requires dst != src && d + len <= dst.Length && s + len <= src.Length
    modifies dst
    ensures forall i :: 0 <= i < dst.Length ==>
                          dst[i] == if d <= i < d + len then src[s + i - d] else old(dst[i])
  {
    var k := 0;
    while k < len
      invariant k <= len
      invariant forall i :: 0 <= i < dst.Length ==>
                              dst[i] == if d <= i < d + k then src[s + i - d] else old(dst[i])
    {
      dst[d + k] := src[s + k];
      k := k + 1;
    }
  }

  class AudioRingBuffer {
    const buffer: array<s16>
    var readIdx: nat
    var writeIdx: nat

    ghost predicate Valid()
      reads this
    {
      buffer.Length == 2 * SIZE && readIdx < SIZE && writeIdx < SIZE
    }

    /** The queued samples, oldest first. */
    ghost function Contents(): (q: seq<s16>)
      reads this, buffer
      requires Valid()
      ensures |q| == 2 * Available(readIdx, writeIdx)
    {
      Window(buffer[..], readIdx, Available(readIdx, writeIdx))
    }

    constructor ()
      ensures Valid() && Contents() == [] && fresh(buffer)
    {
      buffer := new s16[2 * SIZE](_ => 0);
      readIdx := 0;
      writeIdx := 0;
    }

    method GetAvailable() returns (n: nat)
      requires Valid()
      ensures 2 * n == |Contents()|
    {
      n := Distance(writeIdx, readIdx);
    }

    method GetFreeSpace() returns (n: nat)
      requires Valid()
      ensures n == SIZE - 1 - |Contents()| / 2
    {
      CountsAddUp(readIdx, writeIdx);
      n := Distance(readIdx, writeIdx, 1);
    }

    /** The writer's one or two memcpy calls. */
    method CopyIn(start: nat, samples: array<s16>, n: nat)
      requires Valid() && samples != buffer && start < SIZE && n < SIZE && 2 * n <= samples.Length
      modifies buffer
      ensures buffer[..] == Blit(old(buffer[..]), start, n, samples[..2 * n])
    {
      if start + n <= SIZE {
        MemCpy(buffer, 2 * start, samples, 0, 2 * n);
      } else {
        var firstChunk := SIZE - start;
        var secondChunk := n - firstChunk;
        MemCpy(buffer, 2 * start, samples, 0, 2 * firstChunk);
        MemCpy(buffer, 0, samples, 2 * firstChunk, 2 * secondChunk);
      }
    }

    /** The reader's. */
    method CopyOut(samples: array<s16>, start: nat, n: nat)
      requires Valid() && samples != buffer && start < SIZE && n < SIZE && 2 * n <= samples.Length
      modifies samples
      ensures forall j :: 0 <= j < 2 * n ==> samples[j] == buffer[Slot(start, n, j)]
      ensures samples[2 * n..] == old(samples[2 * n..])
    {
      if start + n <= SIZE {
        MemCpy(samples, 0, buffer, 2 * start, 2 * n);
      } else {
        var firstChunk := SIZE - start;
        var secondChunk := n - firstChunk;
        MemCpy(samples, 0, buffer, 2 * start, 2 * firstChunk);
        MemCpy(samples, 2 * firstChunk, buffer, 0, 2 * secondChunk);
      }
    }

    /** Copies in `n` samples that fit and publishes them. */
    method Put(samples: array<s16>, n: nat)
      requires Valid() && samples != buffer && 2 * n <= samples.Length
      requires 0 < n <= FreeSpace(readIdx, writeIdx)
      modifies this`writeIdx, buffer
      ensures Valid() && Contents() == old(Contents()) + samples[..2 * n]
    {
      hide Window, Slot, Blit, Available, FreeSpace, Place;
      ghost var before := buffer[..];
      ghost var w := writeIdx;
      CopyIn(writeIdx, samples, n);
      Appended(before, buffer[..], readIdx, w, samples[..2 * n], n);
      writeIdx := (writeIdx + n) % SIZE;
    }

    method Write(samples: array<s16>, count: nat)
      requires Valid() && samples != buffer && 2 * count <= samples.Length
      modifies this, buffer
      ensures Valid() && readIdx == old(readIdx)
      ensures var n := Min(count, SIZE - 1 - |old(Contents())| / 2);
              2 * n <= samples.Length && Contents() == old(Contents()) + samples[..2 * n]
    {
      hide Window, Available, Distance;
      var n := count;
      var free := GetFreeSpace();
      if n > free { n := free; }
      if n == 0 {
        assert samples[..0] == [];
        return;
      }
      CountsAddUp(readIdx, writeIdx);
      Put(samples, n);
    }

    /** Copies out `n` samples that are there and gives their slots back. */
    method Take(samples: array<s16>, n: nat)
      requires Valid() && samples != buffer && 2 * n <= samples.Length
      requires 0 < n <= Available(readIdx, writeIdx)
      modifies samples, this`readIdx
      ensures Valid()
      ensures samples[..] == old(Contents())[..2 * n] + old(samples[..])[2 * n..]
      ensures Contents() == old(Contents())[2 * n..]
    {
      hide Window, Slot, Available, Place;
      ghost var r := readIdx;
      CopyOut(samples, readIdx, n);
      Fetched(buffer[..], r, writeIdx, samples[..2 * n], n);
      assert samples[..] == samples[..2 * n] + samples[2 * n..];
      readIdx := (readIdx + n) % SIZE;
    }

    method Read(samples: array<s16>, count: nat) returns (n: nat)
      requires Valid() && samples != buffer && 2 * count <= samples.Length
      modifies samples, this`readIdx
      ensures Valid()
      ensures n == Min(count, |old(Contents())| / 2)
      ensures samples[..] == old(Contents())[..2 * n] + old(samples[..])[2 * n..]
      ensures Contents() == old(Contents())[2 * n..]
    {
      hide Window, Available, Distance;
      n := count;
      var avail := GetAvailable();
      if n > avail { n := avail; }
      if n == 0 {
        assert samples[..] == [] + old(samples[..])[0..];
        return;
      }
      Take(samples, n);
    }
  }

  /** The queue's end is where the writer stands. */
  lemma EndIsWriter(r: nat, w: nat)
    requires r < SIZE && w < SIZE
    ensures (r + Available(r, w)) % SIZE == w
  {
    var d := w - r;
    assert d == SIZE * (d / SIZE) + d % SIZE;
    assert r + d % SIZE == SIZE * -(d / SIZE) + w;
    Residue(r + d % SIZE, -(d / SIZE), w);
  }

  lemma CountIs(r: nat, w: nat, k: nat)
    requires k < SIZE && w == (r + k) % SIZE
    ensures Available(r, w) == k
  {
    assert r + k == SIZE * ((r + k) / SIZE) + w;
    Residue(w - r, -((r + k) / SIZE), k);
  }

  lemma PlaceMod(b: nat, i: nat)
    ensures Place(2 * (b % SIZE) + i) == Place(2 * b + i)
  {
    assert (2 * b + i) / 2 == b + i / 2 && (2 * (b % SIZE) + i) / 2 == b % SIZE + i / 2;
    Advance(b, i / 2);
  }

  /** Adding `n` samples after the old contents, at the writer's slots. */
  lemma Appended(before: seq<s16>, after: seq<s16>, r: nat, w: nat, samples: seq<s16>, n: nat)
    requires |before| == |after| == 2 * SIZE && r < SIZE && w < SIZE && |samples| == 2 * n
    requires 0 < n <= FreeSpace(r, w)
    requires after == Blit(before, w, n, samples)
    ensures Available(r, (w + n) % SIZE) == Available(r, w) + n
    ensures Window(after, r, Available(r, w) + n) == Window(before, r, Available(r, w)) + samples
  {
    var k := Available(r, w);
    CountsAddUp(r, w);
    EndIsWriter(r, w);
    Advance(r + k, n);
    CountIs(r, (w + n) % SIZE, k + n);
    hide Blit, Available, FreeSpace;
    forall i | 0 <= i < 2 * (k + n)
      ensures after[Place(2 * r + i)] == (Window(before, r, k) + samples)[i]
    {
      if i < 2 * k {
        BlitSpares(before, w, n, samples, r, k, i);
      } else {
        SlotIsPlace(r + k, n, i - 2 * k);
        BlitAt(before, w, n, samples, i - 2 * k);
      }
    }
  }

  /** The buffer after the one or two chunks are copied in. */
  function Blit(before: seq<s16>, start: nat, n: nat, samples: seq<s16>): (after: seq<s16>)
    requires |before| == 2 * SIZE && start < SIZE && n < SIZE && |samples| == 2 * n
    ensures |after| == 2 * SIZE
  {
    seq(2 * SIZE, p requires 0 <= p < 2 * SIZE =>
      if start + n <= SIZE then
        if 2 * start <= p < 2 * (start + n) then samples[p - 2 * start] else before[p]
      else
        if 2 * start <= p then samples[p - 2 * start]
        else if p < 2 * (start + n - SIZE) then samples[p + 2 * (SIZE - start)]
        else before[p])
  }

  lemma BlitAt(before: seq<s16>, start: nat, n: nat, samples: seq<s16>, j: nat)
    requires |before| == 2 * SIZE && start < SIZE && n < SIZE && |samples| == 2 * n && j < 2 * n
    ensures Blit(before, start, n, samples)[Slot(start, n, j)] == samples[j]
  {
  }

  /** A word changes only in a slot the copy names. */
  lemma BlitElsewhere(before: seq<s16>, start: nat, n: nat, samples: seq<s16>, p: nat)
    requires |before| == 2 * SIZE && start < SIZE && n < SIZE && |samples| == 2 * n && p < 2 * SIZE
    ensures Blit(before, start, n, samples)[p] == before[p] || exists j :: 0 <= j < 2 * n && Slot(start, n, j) == p
  {
    if start + n <= SIZE {
      if 2 * start <= p < 2 * (start + n) { assert Slot(start, n, p - 2 * start) == p; }
    } else if 2 * start <= p {
      assert Slot(start, n, p - 2 * start) == p;
    } else if p < 2 * (start + n - SIZE) {
      assert Slot(start, n, p + 2 * (SIZE - start)) == p;
    }
  }

  lemma BlitSpares(before: seq<s16>, w: nat, n: nat, samples: seq<s16>, r: nat, k: nat, i: nat)
    requires |before| == 2 * SIZE && w == (r + k) % SIZE && 0 < n && k + n < SIZE && |samples| == 2 * n && i < 2 * k
    ensures Blit(before, w, n, samples)[Place(2 * r + i)] == before[Place(2 * r + i)]
  {
    forall j | 0 <= j < 2 * n ensures Slot(w, n, j) != Place(2 * r + i) {
      SlotIsPlace(r + k, n, j);
      PlaceInjective(2 * r + i, 2 * (r + k) + j);
    }
    hide Blit, Slot, Place;
    BlitElsewhere(before, w, n, samples, Place(2 * r + i));
  }

  lemma Fetched(buf: seq<s16>, r: nat, w: nat, samples: seq<s16>, n: nat)
    requires |buf| == 2 * SIZE && r < SIZE && w < SIZE && |samples| == 2 * n
    requires 0 < n <= Available(r, w)
    requires forall j :: 0 <= j < 2 * n ==> samples[j] == buf[Slot(r, n, j)]
    ensures samples == Window(buf, r, Available(r, w))[..2 * n]
    ensures Available((r + n) % SIZE, w) == Available(r, w) - n
    ensures Window(buf, (r + n) % SIZE, Available(r, w) - n) == Window(buf, r, Available(r, w))[2 * n..]
  {
    hide Place, Slot, Available;
    var k := Available(r, w);
    EndIsWriter(r, w);
    Advance(r + n, k - n);
    CountIs((r + n) % SIZE, w, k - n);
    Front(buf, r, k, samples, n);
    Rest(buf, r, k, n);
  }

  lemma Front(buf: seq<s16>, r: nat, k: nat, samples: seq<s16>, n: nat)
    requires |buf| == 2 * SIZE && r < SIZE && |samples| == 2 * n && n <= k < SIZE
    requires forall j :: 0 <= j < 2 * n ==> samples[j] == buf[Slot(r, n, j)]
    ensures samples == Window(buf, r, k)[..2 * n]
  {
    hide Place, Slot, Window;
    var w := Window(buf, r, k);
    forall j | 0 <= j < 2 * n ensures samples[j] == w[j] { SlotIsPlace(r, n, j); }
  }

  lemma Rest(buf: seq<s16>, r: nat, k: nat, n: nat)
    requires |buf| == 2 * SIZE && r < SIZE && n <= k
    ensures Window(buf, (r + n) % SIZE, k - n) == Window(buf, r, k)[2 * n..]
  {
    hide Place;
    var x, y := Window(buf, (r + n) % SIZE, k - n), Window(buf, r, k)[2 * n..];
    forall i | 0 <= i < 2 * (k - n) ensures x[i] == y[i] {
      PlaceMod(r + n, i);
      assert 2 * (r + n) + i == 2 * r + (2 * n + i);
    }
  }
}
