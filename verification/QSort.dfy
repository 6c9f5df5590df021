/** qsort on a raw byte array: records are `size` bytes each, moved byte by byte. */
module QSort {
  import opened Basics

  type Record = seq<u8>

  /** What the caller's comparator has to be: a total preorder. */
  ghost predicate TotalPreorder(compar: (Record, Record) -> int) {
    && (forall x, y :: compar(x, y) <= 0 || compar(y, x) <= 0)
    && (forall x, y, z :: compar(x, y) <= 0 && compar(y, z) <= 0 ==> compar(x, z) <= 0)
  }

  lemma Transitive(compar: (Record, Record) -> int, x: Record, y: Record, z: Record)
    requires TotalPreorder(compar) && compar(x, y) <= 0 && compar(y, z) <= 0
    ensures compar(x, z) <= 0
  {
  }

  ghost predicate Sorted(s: seq<Record>, compar: (Record, Record) -> int) {
    forall i, j :: 0 <= i < j < |s| ==> compar(s[i], s[j]) <= 0
  }

  // ---------------------------------------------------------------- records in bytes

  /** The bytes of n records. */
  function Times(n: nat, size: nat): nat {
    n * size
  }

  lemma TimesSum(m: nat, n: nat, size: nat)
    ensures Times(m + n, size) == Times(m, size) + Times(n, size)
  {
  }

  /** Record i starts at base + Times(i, size), and the records do not overlap. */
  lemma Offsets(i: nat, j: nat, size: nat)
    requires i < j
    ensures Times(i, size) + size <= Times(j, size) && Times(i + 1, size) == Times(i, size) + size
  {
    TimesSum(i + 1, j - i - 1, size);
    TimesSum(i, 1, size);
  }

  function RecordAt(b: seq<u8>, base: nat, i: nat, size: nat): Record
    requires base + Times(i, size) + size <= |b|
  {
    b[base + Times(i, size)..base + Times(i, size) + size]
  }

  /** The `num` records from `base` on. */
  function Records(b: seq<u8>, base: nat, num: nat, size: nat): (r: seq<Record>)
    requires base + Times(num, size) <= |b|
    ensures |r| == num
  {
    if num == 0 then []
    else
      Offsets(num - 1, num, size);
      Records(b, base, num - 1, size) + [RecordAt(b, base, num - 1, size)]
  }

  lemma {:induction false} RecordsAt(b: seq<u8>, base: nat, num: nat, size: nat, i: nat)
    requires base + Times(num, size) <= |b| && i < num
    ensures base + Times(i, size) + size <= |b|
    ensures Records(b, base, num, size)[i] == RecordAt(b, base, i, size)
  {
    Offsets(i, num, size);
    if i < num - 1 {
      Offsets(num - 1, num, size);
      RecordsAt(b, base, num - 1, size, i);
    }
  }

  /** The records depend on their own bytes only. */
  lemma {:induction false} RecordsAlike(b: seq<u8>, b': seq<u8>, base: nat, num: nat, size: nat)
    requires |b'| == |b| && base + Times(num, size) <= |b|
    requires b'[base..base + Times(num, size)] == b[base..base + Times(num, size)]
    ensures Records(b', base, num, size) == Records(b, base, num, size)
  {
    if num > 0 {
      var k := Times(num - 1, size);
      Offsets(num - 1, num, size);
      var w, w' := b[base..base + Times(num, size)], b'[base..base + Times(num, size)];
      assert b'[base..base + k] == w'[..k] == w[..k] == b[base..base + k];
      RecordsAlike(b, b', base, num - 1, size);
      assert b'[base + k..base + k + size] == w'[k..] == w[k..] == b[base + k..base + k + size];
    }
  }

  /** The records of a front part and the rest. */
  lemma {:induction false} RecordsSplit(b: seq<u8>, base: nat, m: nat, n: nat, size: nat)
    requires base + Times(m + n, size) <= |b|
    ensures Times(m, size) + Times(n, size) == Times(m + n, size)
    ensures Records(b, base, m + n, size) == Records(b, base, m, size) + Records(b, base + Times(m, size), n, size)
  {
    TimesSum(m, n, size);
    if n > 0 {
      Offsets(m + n - 1, m + n, size);
      Offsets(n - 1, n, size);
      RecordsSplit(b, base, m, n - 1, size);
    }
  }

  // ---------------------------------------------------------------- swapping

  /** The bytes of two equal or disjoint ranges exchanged. */
  ghost predicate Exchanged(b: seq<u8>, b': seq<u8>, x: nat, y: nat, size: nat)
    requires x + size <= |b| && y + size <= |b| && (x == y || x + size <= y || y + size <= x)
  {
    && |b'| == |b|
    && b'[x..x + size] == b[y..y + size] && b'[y..y + size] == b[x..x + size]
    && forall k :: 0 <= k < |b| && !(x <= k < x + size) && !(y <= k < y + size) ==> b'[k] == b[k]
  }

  /** Exchanging the bytes exchanges whole records, also when both are the same one. */
  lemma ExchangeSwaps(b: seq<u8>, b': seq<u8>, base: nat, num: nat, size: nat, i: nat, j: nat)
    requires base + Times(num, size) <= |b| && i <= j < num
    requires base + Times(j, size) + size <= |b| && base + Times(i, size) + size <= |b| && (i == j || base + Times(i, size) + size <= base + Times(j, size))
    requires Exchanged(b, b', base + Times(i, size), base + Times(j, size), size)
    ensures Records(b', base, num, size) == Swapped(Records(b, base, num, size), i, j)
  {
    hide Times, Records;
    var r, r' := Records(b, base, num, size), Records(b', base, num, size);
    assert RecordAt(b', base, i, size) == RecordAt(b, base, j, size) && RecordAt(b', base, j, size) == RecordAt(b, base, i, size);
    hide Exchanged, RecordAt;
    RecordsAt(b, base, num, size, i);
    RecordsAt(b, base, num, size, j);
    forall k | 0 <= k < num ensures r'[k] == Swapped(r, i, j)[k] {
      RecordsAt(b, base, num, size, k);
      RecordsAt(b', base, num, size, k);
      if k != i && k != j { OthersAlike(b, b', base, size, i, j, k); }
    }
  }

  lemma OthersAlike(b: seq<u8>, b': seq<u8>, base: nat, size: nat, i: nat, j: nat, k: nat)
    requires k != i && k != j
    requires base + Times(k, size) + size <= |b|
    requires base + Times(j, size) + size <= |b| && base + Times(i, size) + size <= |b|
    requires base + Times(i, size) == base + Times(j, size) || base + Times(i, size) + size <= base + Times(j, size)
    requires Exchanged(b, b', base + Times(i, size), base + Times(j, size), size)
    ensures RecordAt(b', base, k, size) == RecordAt(b, base, k, size)
  {
    if k < i { Offsets(k, i, size); } else { Offsets(i, k, size); }
    if k < j { Offsets(k, j, size); } else { Offsets(j, k, size); }
  }

  method SwapBytes(a: array<u8>, x: nat, y: nat, size: nat)
    requires x + size <= a.Length && y + size <= a.Length && (x == y || x + size <= y || y + size <= x)
    modifies a
    ensures Exchanged(old(a[..]), a[..], x, y, size)
  {
    hide Exchanged;
    ghost var was := a[..];
    var n := 0;
    while n < size
      invariant n <= size
      invariant forall p :: x <= p < x + n ==> a[p] == was[p - x + y]
      invariant forall p :: y <= p < y + n ==> a[p] == was[p - y + x]
      invariant forall p :: 0 <= p < a.Length && !(x <= p < x + n) && !(y <= p < y + n) ==> a[p] == was[p]
    {
      var tmp := a[x + n];
      a[x + n] := a[y + n];
      a[y + n] := tmp;
      n := n + 1;
    }
    AllExchanged(was, a[..], x, y, size);
  }

  lemma AllExchanged(b: seq<u8>, b': seq<u8>, x: nat, y: nat, size: nat)
    requires x + size <= |b| == |b'| && y + size <= |b| && (x == y || x + size <= y || y + size <= x)
    requires forall p :: x <= p < x + size ==> b'[p] == b[p - x + y]
    requires forall p :: y <= p < y + size ==> b'[p] == b[p - y + x]
    requires forall p :: 0 <= p < |b| && !(x <= p < x + size) && !(y <= p < y + size) ==> b'[p] == b[p]
    ensures Exchanged(b, b', x, y, size)
  {
  }

  // ---------------------------------------------------------------- sorting

  ghost predicate AllAtMost(s: seq<Record>, p: Record, compar: (Record, Record) -> int) {
    forall i :: 0 <= i < |s| ==> compar(s[i], p) <= 0
  }

  ghost predicate AllAbove(s: seq<Record>, p: Record, compar: (Record, Record) -> int) {
    forall i :: 0 <= i < |s| ==> compar(s[i], p) > 0
  }

  /** What holds for all records still does when they are permuted. */
  lemma PermutedBounds(s: seq<Record>, t: seq<Record>, p: Record, compar: (Record, Record) -> int)
    requires multiset(s) == multiset(t)
    ensures AllAtMost(s, p, compar) ==> AllAtMost(t, p, compar)
    ensures AllAbove(s, p, compar) ==> AllAbove(t, p, compar)
  {
    forall i | 0 <= i < |t| ensures t[i] in s {
      assert t[i] in multiset(t);
    }
  }

  /** Sorted parts around their pivot are sorted together. */
  lemma SortedAround(l: seq<Record>, p: Record, r: seq<Record>, compar: (Record, Record) -> int)
    requires TotalPreorder(compar) && Sorted(l, compar) && Sorted(r, compar)
    requires AllAtMost(l, p, compar) && AllAbove(r, p, compar)
    ensures Sorted(l + [p] + r, compar)
  {
    var s := l + [p] + r;
    forall i, j | 0 <= i < j < |s| ensures compar(s[i], s[j]) <= 0 {
      if i < |l| < j { Transitive(compar, s[i], p, s[j]); }
    }
  }

  /** Only the bytes of the `num` records differ. */
  ghost predicate Inside(b: seq<u8>, b': seq<u8>, base: nat, num: nat, size: nat)
    requires base + Times(num, size) <= |b|
  {
    |b'| == |b| && b'[..base] == b[..base] && b'[base + Times(num, size)..] == b[base + Times(num, size)..]
  }

  lemma InsideAgain(b: seq<u8>, b1: seq<u8>, b2: seq<u8>, base: nat, num: nat, size: nat)
    requires base + Times(num, size) <= |b| && Inside(b, b1, base, num, size) && Inside(b1, b2, base, num, size)
    ensures Inside(b, b2, base, num, size)
  {
  }

  lemma ExchangedInside(b: seq<u8>, b': seq<u8>, base: nat, num: nat, size: nat, x: nat, y: nat)
    requires base <= x && base <= y && x + size <= base + Times(num, size) && y + size <= base + Times(num, size) <= |b|
    requires (x == y || x + size <= y || y + size <= x) && Exchanged(b, b', x, y, size)
    ensures Inside(b, b', base, num, size)
  {
  }

  method SwapRecords(a: array<u8>, base: nat, num: nat, size: nat, i: nat, j: nat)
    requires base + Times(num, size) <= a.Length && i <= j < num
    modifies a
    ensures Records(a[..], base, num, size) == Swapped(Records(old(a[..]), base, num, size), i, j)
    ensures Inside(old(a[..]), a[..], base, num, size)
  {
    hide Times, Exchanged, Inside, Records;
    Offsets(j, num, size);
    if i < j { Offsets(i, j, size); }
    SwapBytes(a, base + Times(i, size), base + Times(j, size), size);
    ExchangeSwaps(old(a[..]), a[..], base, num, size, i, j);
    ExchangedInside(old(a[..]), a[..], base, num, size, base + Times(i, size), base + Times(j, size));
  }

  /** Of the first `j` records, the first `i` are at most the pivot, which is the last record, and the
      others are above it. */
  ghost predicate Parted(s: seq<Record>, i: nat, j: nat, compar: (Record, Record) -> int) {
    && i <= j < |s|
    && AllAtMost(s[..i], s[|s| - 1], compar) && AllAbove(s[i..j], s[|s| - 1], compar)
  }

  lemma PartedSwap(s: seq<Record>, i: nat, j: nat, compar: (Record, Record) -> int)
    requires Parted(s, i, j, compar) && j < |s| - 1 && compar(s[j], s[|s| - 1]) <= 0
    ensures Parted(Swapped(s, i, j), i + 1, j + 1, compar)
    ensures multiset(Swapped(s, i, j)) == multiset(s)
  {
    SwapPermutes(s, i, j);
    var t, p := Swapped(s, i, j), s[|s| - 1];
    assert t[..i] == s[..i] && t[i] == s[j] && t[|t| - 1] == p;
    forall k | i + 1 <= k < j + 1 ensures compar(t[k], p) > 0 {
      assert if k < j then t[k] == s[i..j][k - i] else t[k] == s[i..j][0];
    }
  }

  lemma PartedEnd(s: seq<Record>, i: nat, compar: (Record, Record) -> int)
    requires TotalPreorder(compar) && |s| > 0 && Parted(s, i, |s| - 1, compar)
    ensures var t := Swapped(s, i, |s| - 1);
            AllAtMost(t[..i], t[i], compar) && AllAbove(t[i + 1..], t[i], compar) && multiset(t) == multiset(s)
  {
    SwapPermutes(s, i, |s| - 1);
    var t, p := Swapped(s, i, |s| - 1), s[|s| - 1];
    assert t[..i] == s[..i] && t[i] == p;
    forall k | i + 1 <= k < |t| ensures compar(t[k], p) > 0 {
      assert if k < |s| - 1 then t[k] == s[i..|s| - 1][k - i] else t[k] == s[i..|s| - 1][0];
    }
  }

  /** Lomuto's partition: returns where the pivot ends up. */
  method Partition(a: array<u8>, base: nat, num: nat, size: nat, compar: (Record, Record) -> int) returns (i: nat)
    requires base + Times(num, size) <= a.Length && num > 0 && TotalPreorder(compar)
    modifies a
    ensures i < num && Inside(old(a[..]), a[..], base, num, size)
    ensures multiset(Records(a[..], base, num, size)) == multiset(Records(old(a[..]), base, num, size))
    ensures var s := Records(a[..], base, num, size);
            AllAtMost(s[..i], s[i], compar) && AllAbove(s[i + 1..], s[i], compar)
  {
    hide Times, Inside, Records, Swapped, AllAtMost, AllAbove, TotalPreorder, RecordAt;
    i := 0;
    var j := 0;
    ghost var b := a[..];
    assert Parted(Records(b, base, num, size), 0, 0, compar) && Inside(b, b, base, num, size) by { Start(b, base, num, size, compar); }
    while j < num - 1
      invariant i <= j < num && Inside(b, a[..], base, num, size)
      invariant multiset(Records(a[..], base, num, size)) == multiset(Records(b, base, num, size))
      invariant Parted(Records(a[..], base, num, size), i, j, compar)
    {
      ghost var s, was := Records(a[..], base, num, size), a[..];
      RecordsAt(a[..], base, num, size, j);
      RecordsAt(a[..], base, num, size, num - 1);
      if compar(RecordAt(a[..], base, j, size), RecordAt(a[..], base, num - 1, size)) <= 0 {
        PartedSwap(s, i, j, compar);
        SwapRecords(a, base, num, size, i, j);
        InsideAgain(b, was, a[..], base, num, size);
        i := i + 1;
      } else {
        PartedSkip(s, i, j, compar);
      }
      j := j + 1;
    }
    ghost var was := a[..];
    PartedEnd(Records(was, base, num, size), i, compar);
    SwapRecords(a, base, num, size, i, num - 1);
    InsideAgain(b, was, a[..], base, num, size);
  }

  lemma Start(b: seq<u8>, base: nat, num: nat, size: nat, compar: (Record, Record) -> int)
    requires base + Times(num, size) <= |b| && num > 0
    ensures Parted(Records(b, base, num, size), 0, 0, compar) && Inside(b, b, base, num, size)
  {
  }

  lemma PartedSkip(s: seq<Record>, i: nat, j: nat, compar: (Record, Record) -> int)
    requires Parted(s, i, j, compar) && j < |s| - 1 && compar(s[j], s[|s| - 1]) > 0
    ensures Parted(s, i, j + 1, compar)
  {
    assert s[i..j + 1] == s[i..j] + [s[j]];
  }

  /** For any record size and any total preorder the records end up sorted, none is lost, doubled or
      torn, and no other byte changes. */
  method QSort(a: array<u8>, base: nat, num: nat, size: nat, compar: (Record, Record) -> int)
    requires base + Times(num, size) <= a.Length && TotalPreorder(compar)
    modifies a
    ensures Sorted(Records(a[..], base, num, size), compar)
    ensures multiset(Records(a[..], base, num, size)) == multiset(Records(old(a[..]), base, num, size))
    ensures Inside(old(a[..]), a[..], base, num, size)
    decreases num
  {
    hide Times, Inside, Records, AllAtMost, AllAbove, TotalPreorder, Sorted;
    FewSorted(a[..], base, num, size, compar);
    if num <= 1 { return; }
    ghost var b := a[..];
    var i := Partition(a, base, num, size, compar);
    ghost var b0 := a[..];
    RightFits(base, num, size, i);
    FewSorted(b0, base, i, size, compar);
    if i > 1 { QSort(a, base, i, size, compar); }
    ghost var b1 := a[..];
    FewSorted(b1, base + Times(i + 1, size), num - i - 1, size, compar);
    if num - i - 1 > 1 { QSort(a, base + Times(i + 1, size), num - i - 1, size, compar); }
    Assembled(b0, b1, a[..], base, num, size, i, compar);
    InsideAgain(b, b0, a[..], base, num, size);
  }

  /** Nothing to do for at most one record. */
  lemma FewSorted(b: seq<u8>, base: nat, num: nat, size: nat, compar: (Record, Record) -> int)
    requires base + Times(num, size) <= |b|
    ensures Inside(b, b, base, num, size)
    ensures num <= 1 ==> Sorted(Records(b, base, num, size), compar)
  {
  }

  lemma RightFits(base: nat, num: nat, size: nat, i: nat)
    requires i < num
    ensures base + Times(i + 1, size) + Times(num - i - 1, size) == base + Times(num, size)
    ensures base + Times(i, size) + size == base + Times(i + 1, size)
  {
    Offsets(i, i + 1, size);
    TimesSum(i + 1, num - i - 1, size);
  }

  /** Left part, pivot and right part. */
  lemma ThreeParts(b: seq<u8>, base: nat, num: nat, size: nat, i: nat)
    requires base + Times(num, size) <= |b| && i < num
    requires base + Times(i, size) + size == base + Times(i + 1, size)
    requires base + Times(i + 1, size) + Times(num - i - 1, size) == base + Times(num, size)
    ensures Records(b, base, num, size) ==
            Records(b, base, i, size) + [RecordAt(b, base, i, size)] + Records(b, base + Times(i + 1, size), num - i - 1, size)
  {
    hide Times;
    RecordsSplit(b, base, i + 1, num - i - 1, size);
  }

  /** The left part sorted, then the right part, around a pivot that stays. */
  lemma Assembled(b0: seq<u8>, b1: seq<u8>, b2: seq<u8>, base: nat, num: nat, size: nat, i: nat, compar: (Record, Record) -> int)
    requires TotalPreorder(compar) && base + Times(num, size) <= |b0| && i < num
    requires base + Times(i, size) <= |b0| && Inside(b0, b1, base, i, size)
    requires base + Times(i + 1, size) + Times(num - i - 1, size) <= |b1|
    requires Inside(b1, b2, base + Times(i + 1, size), num - i - 1, size)
    requires Sorted(Records(b1, base, i, size), compar)
    requires multiset(Records(b1, base, i, size)) == multiset(Records(b0, base, i, size))
    requires var r := base + Times(i + 1, size);
             && Sorted(Records(b2, r, num - i - 1, size), compar)
             && multiset(Records(b2, r, num - i - 1, size)) == multiset(Records(b1, r, num - i - 1, size))
    requires var s := Records(b0, base, num, size);
             AllAtMost(s[..i], s[i], compar) && AllAbove(s[i + 1..], s[i], compar)
    ensures Inside(b0, b2, base, num, size)
    ensures Sorted(Records(b2, base, num, size), compar)
    ensures multiset(Records(b2, base, num, size)) == multiset(Records(b0, base, num, size))
  {
    hide Inside, Times, Records, RecordAt, Sorted, AllAtMost, AllAbove, TotalPreorder;
    var r, n := base + Times(i + 1, size), num - i - 1;
    RightFits(base, num, size, i);
    PartsStay(b0, b1, b2, base, num, size, i);
    ThreeParts(b0, base, num, size, i);
    ThreeParts(b2, base, num, size, i);
    var l0, p, r0 := Records(b0, base, i, size), RecordAt(b0, base, i, size), Records(b0, r, n, size);
    var l2, r2 := Records(b2, base, i, size), Records(b2, r, n, size);
    var s := Records(b0, base, num, size);
    assert s[..i] == l0 && s[i] == p && s[i + 1..] == r0;
    PermutedBounds(l0, l2, p, compar);
    PermutedBounds(r0, r2, p, compar);
    SortedAround(l2, p, r2, compar);
  }

  lemma PartsStay(b0: seq<u8>, b1: seq<u8>, b2: seq<u8>, base: nat, num: nat, size: nat, i: nat)
    requires base + Times(num, size) <= |b0| && i < num && base + Times(i, size) <= |b0|
    requires base + Times(i, size) + size == base + Times(i + 1, size)
    requires base + Times(i + 1, size) + Times(num - i - 1, size) == base + Times(num, size)
    requires Inside(b0, b1, base, i, size) && Inside(b1, b2, base + Times(i + 1, size), num - i - 1, size)
    ensures |b2| == |b1| == |b0| && Inside(b0, b2, base, num, size)
    ensures Records(b2, base, i, size) == Records(b1, base, i, size)
    ensures RecordAt(b2, base, i, size) == RecordAt(b0, base, i, size)
    ensures Records(b1, base + Times(i + 1, size), num - i - 1, size) == Records(b0, base + Times(i + 1, size), num - i - 1, size)
  {
    hide Times;
    var x, y, z := base + Times(i, size), base + Times(i + 1, size), base + Times(num, size);
    assert base <= x <= y <= z;
    TailAlike(b0, b1, x, y, z);
    HeadAlike(b1, b2, base, x, y);
    RecordsAlike(b1, b2, base, i, size);
    RecordsAlike(b0, b1, y, num - i - 1, size);
  }

  lemma Part(b: seq<u8>, b': seq<u8>, lo: nat, hi: nat, x: nat, y: nat)
    requires |b'| == |b| && lo <= x <= y <= hi <= |b| && b'[lo..hi] == b[lo..hi]
    ensures b'[x..y] == b[x..y]
  {
    forall k | x <= k < y ensures b'[k] == b[k] {
      assert b'[lo..hi][k - lo] == b[lo..hi][k - lo];
    }
  }

  lemma TailAlike(b: seq<u8>, b': seq<u8>, x: nat, y: nat, z: nat)
    requires |b'| == |b| && x <= y <= z <= |b| && b'[x..] == b[x..]
    ensures b'[x..y] == b[x..y] && b'[y..z] == b[y..z] && b'[z..] == b[z..]
  {
    assert b'[x..|b|] == b[x..|b|];
    Part(b, b', x, |b|, x, y);
    Part(b, b', x, |b|, y, z);
    Part(b, b', x, |b|, z, |b|);
  }

  lemma HeadAlike(b: seq<u8>, b': seq<u8>, w: nat, x: nat, y: nat)
    requires |b'| == |b| && w <= x <= y <= |b| && b'[..y] == b[..y]
    ensures b'[..w] == b[..w] && b'[w..x] == b[w..x] && b'[x..y] == b[x..y]
  {
    assert b'[0..y] == b[0..y];
    Part(b, b', 0, y, 0, w);
    Part(b, b', 0, y, w, x);
    Part(b, b', 0, y, x, y);
  }
}
