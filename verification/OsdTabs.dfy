/** The menu's ROM list: its order, the tabs it is split into, and how the split is chosen. */
module OsdTabs {
  import opened Basics

  /** Characters are signed bytes; a name is what stands before the NUL. */
  type s8 = x: int | -128 <= x < 128
  type Name = s: seq<s8> | 0 !in s

  const MAX_ROMS: nat := 1000

  function Lower(c: s8): (l: s8)
    ensures l != 0 <==> c != 0
  {
    if 65 <= c <= 90 then c + 32 else c
  }

  function Unsigned(c: s8): nat { if c < 0 then c + 256 else c }

  /** The case-insensitive comparison; the end of the shorter name is compared unsigned. */
  function Compare(a: Name, b: Name): (r: int)
    decreases |a|
  {
    if a != [] && b != [] then
      if Lower(a[0]) != Lower(b[0]) then Lower(a[0]) - Lower(b[0])
      else Compare(Tail(a), Tail(b))
    else
      (if a == [] then 0 else Unsigned(a[0])) - (if b == [] then 0 else Unsigned(b[0]))
  }

  function Tail(a: Name): (t: Name)
    requires a != []
    ensures |t| == |a| - 1
  {
    assert forall i :: 0 <= i < |a[1..]| ==> a[1..][i] in a;
    a[1..]
  }

  lemma First(a: Name)
    requires a != []
    ensures a[0] != 0
  {
  }

  /** Although signed and unsigned comparisons are mixed, it is a total preorder. */
  lemma {:induction false} CompareTotal(a: Name, b: Name)
    ensures Compare(a, b) <= 0 || Compare(b, a) <= 0
    ensures Compare(a, b) > 0 ==> Compare(b, a) < 0
    decreases |a|
  {
    if a != [] { First(a); }
    if b != [] { First(b); }
    if a != [] && b != [] { CompareTotal(Tail(a), Tail(b)); }
  }

  lemma {:induction false} CompareTransitive(a: Name, b: Name, c: Name)
    requires Compare(a, b) <= 0 && Compare(b, c) <= 0
    ensures Compare(a, c) <= 0
    decreases |a|
  {
    if a != [] { First(a); }
    if b != [] { First(b); }
    if c != [] { First(c); }
    if a != [] && b != [] && c != [] && Lower(a[0]) == Lower(b[0]) == Lower(c[0]) {
      CompareTransitive(Tail(a), Tail(b), Tail(c));
    }
  }

  /** The same letter in either case, or the same character. */
  predicate Alike(c: int, d: int) {
    c == d || (65 <= c <= 90 && d == c + 32) || (65 <= d <= 90 && c == d + 32)
  }

  /** The first place where two names are not alike decides, by the lower-case characters; when there is
      none, the shorter name comes first. */
  lemma {:induction false} CompareAt(a: Name, b: Name, i: nat)
    requires i <= |a| && i <= |b| && forall k :: 0 <= k < i ==> Alike(a[k], b[k])
    ensures i == |a| == |b| ==> Compare(a, b) == 0
    ensures i == |a| < |b| ==> Compare(a, b) < 0 < Compare(b, a)
    ensures i < |a| && i < |b| && !Alike(a[i], b[i]) ==>
              var x, y := if 65 <= a[i] <= 90 then a[i] + 32 else a[i], if 65 <= b[i] <= 90 then b[i] + 32 else b[i];
              if x < y then Compare(a, b) < 0 else Compare(a, b) > 0
    decreases |a|
  {
    if a != [] { First(a); }
    if b != [] { First(b); }
    if i > 0 {
      assert Alike(a[0], b[0]);
      forall k | 0 <= k < i - 1 ensures Alike(Tail(a)[k], Tail(b)[k]) {
        assert Tail(a)[k] == a[k + 1] && Tail(b)[k] == b[k + 1];
        assert Alike(a[k + 1], b[k + 1]);
      }
      CompareAt(Tail(a), Tail(b), i - 1);
    }
  }

  // ---------------------------------------------------------------- the exchange sort

  ghost predicate Sorted(s: seq<Name>) {
    forall i, j :: 0 <= i < j < |s| ==> Compare(s[i], s[j]) <= 0
  }

  /** The first i names are in place; name i is the least of those from i up to j. */
  ghost predicate Selecting(s: seq<Name>, i: nat, j: nat) {
    && i < j <= |s|
    && (forall x, y :: 0 <= x < i && x < y < |s| ==> Compare(s[x], s[y]) <= 0)
    && (forall y :: i < y < j ==> Compare(s[i], s[y]) <= 0)
  }

  lemma SelectingNext(s: seq<Name>, i: nat, j: nat)
    requires Selecting(s, i, j) && j < |s|
    ensures if Compare(s[i], s[j]) > 0 then Selecting(Swapped(s, i, j), i, j + 1) else Selecting(s, i, j + 1)
  {
    if Compare(s[i], s[j]) > 0 {
      CompareTotal(s[i], s[j]);
      var t := Swapped(s, i, j);
      forall y | i < y < j + 1 ensures Compare(t[i], t[y]) <= 0 {
        if y < j { CompareTransitive(s[j], s[i], s[y]); }
      }
    }
  }

  // ---------------------------------------------------------------- tabs

  /** The characters behind the last dot, if there is one. */
  function Extension(a: Name): (e: seq<Name>)
    ensures |e| <= 1
    decreases |a|
  {
    if a == [] then []
    else
      var e := Extension(Tail(a));
      if e != [] then e else if a[0] == 46 then [Tail(a)] else []
  }

  const CUE: Name := [99, 117, 101]
  const CHD: Name := [99, 104, 100]
  const ISO: Name := [105, 115, 111]

  predicate IsMegaCd(a: Name) {
    var e := Extension(a);
    e != [] && (Compare(e[0], CUE) == 0 || Compare(e[0], CHD) == 0 || Compare(e[0], ISO) == 0)
  }

  /** 1 to 26 for a letter of either case, 0 for anything else. */
  function Letter(a: Name): (l: nat)
    ensures l < 27
  {
    if a == [] then 0
    else
      var c := if 97 <= a[0] <= 122 then a[0] - 32 else a[0];
      if 65 <= c <= 90 then c - 65 + 1 else 0
  }

  /** Letter l of the alphabet, in either case. */
  lemma LetterIs(a: Name, l: nat)
    requires 1 <= l <= 26
    ensures Letter(a) == l <==> a != [] && a[0] in {64 + l, 96 + l}
  {
  }

  /** What stands behind the last dot is the extension. */
  lemma {:induction false} ExtensionIs(stem: Name, e: Name)
    requires 46 !in e
    ensures Extension(Dotted(stem, e)) == [e]
    ensures Extension(e) == []
    decreases |stem|, |e|
  {
    if stem == [] {
      if e != [] { ExtensionIs(stem, Tail(e)); }
      assert Tail(Dotted(stem, e)) == e;
    } else {
      ExtensionIs(Tail(stem), e);
      assert Tail(Dotted(stem, e)) == Dotted(Tail(stem), e);
    }
  }

  function Dotted(stem: Name, e: Name): Name {
    stem + [46] + e
  }

  ghost predicate Spelt(a: Name, b: seq<int>) {
    |a| == |b| && forall k :: 0 <= k < |a| ==> Alike(a[k], b[k])
  }

  /** A ROM is one for the Mega CD exactly when its extension is cue, chd or iso, in any case. */
  lemma MegaCdIs(stem: Name, e: Name)
    requires 46 !in e
    ensures IsMegaCd(Dotted(stem, e)) <==> Spelt(e, [99, 117, 101]) || Spelt(e, [99, 104, 100]) || Spelt(e, [105, 115, 111])
    ensures !IsMegaCd(e)
  {
    ExtensionIs(stem, e);
    Equal(e, CUE);
    Equal(e, CHD);
    Equal(e, ISO);
  }

  lemma {:induction false} Equal(a: Name, b: Name)
    ensures Compare(a, b) == 0 <==> Spelt(a, b)
    decreases |a|
  {
    if a != [] { First(a); }
    if b != [] { First(b); }
    if a != [] && b != [] {
      Equal(Tail(a), Tail(b));
      assert forall k :: 1 <= k < |a| ==> Tail(a)[k - 1] == a[k];
      assert forall k :: 1 <= k < |b| ==> Tail(b)[k - 1] == b[k];
    }
  }

  /** The part a letter belongs to: 0, 1 or 2. */
  function Part(letter: nat, k1: nat, k2: nat): nat {
    if letter <= k1 then 0 else if letter <= k2 then 1 else 2
  }

  /** The tab a ROM belongs to, besides ALL and FAV. */
  function TabOf(a: Name, k1: nat, k2: nat): nat {
    if IsMegaCd(a) then 5 else 2 + Part(Letter(a), k1, k2)
  }

  /** Indices of the first n ROMs of a kind, in order. */
  function Kind(files: seq<Name>, n: nat, mega: bool): (g: seq<nat>)
    requires n <= |files|
    ensures |g| <= n && forall i :: 0 <= i < |g| ==> g[i] < n
  {
    if n == 0 then [] else Kind(files, n - 1, mega) + if IsMegaCd(files[n - 1]) == mega then [n - 1] else []
  }

  function TabList(files: seq<Name>, n: nat, k1: nat, k2: nat, tab: nat): seq<nat>
    requires n <= |files|
  {
    if n == 0 then []
    else TabList(files, n - 1, k1, k2, tab) + if TabOf(files[n - 1], k1, k2) == tab then [n - 1] else []
  }

  /** The entries of an index list whose letter is in a part. */
  function InPart(files: seq<Name>, g: seq<nat>, k1: nat, k2: nat, part: nat): seq<nat>
    requires forall i :: 0 <= i < |g| ==> g[i] < |files|
  {
    if g == [] then []
    else
      var x := g[|g| - 1];
      InPart(files, g[..|g| - 1], k1, k2, part) + if Part(Letter(files[x]), k1, k2) == part then [x] else []
  }

  lemma InPartNext(files: seq<Name>, g: seq<nat>, x: nat, k1: nat, k2: nat, part: nat)
    requires (forall i :: 0 <= i < |g| ==> g[i] < |files|) && x < |files|
    ensures InPart(files, g + [x], k1, k2, part) ==
            InPart(files, g, k1, k2, part) + if Part(Letter(files[x]), k1, k2) == part then [x] else []
  {
    assert (g + [x])[..|g|] == g;
  }

  lemma {:induction false} TabListIs(files: seq<Name>, n: nat, k1: nat, k2: nat, part: nat)
    requires n <= |files| && part < 3
    ensures InPart(files, Kind(files, n, false), k1, k2, part) == TabList(files, n, k1, k2, 2 + part)
    ensures Kind(files, n, true) == TabList(files, n, k1, k2, 5)
  {
    hide Letter, IsMegaCd, InPart;
    if n == 0 {
      assert InPart(files, [], k1, k2, part) == [] by { NoParts(files, k1, k2, part); }
    } else {
      TabListIs(files, n - 1, k1, k2, part);
      InPartNext(files, Kind(files, n - 1, false), n - 1, k1, k2, part);
      if IsMegaCd(files[n - 1]) { assert Kind(files, n, false) == Kind(files, n - 1, false); }
    }
  }

  lemma NoParts(files: seq<Name>, k1: nat, k2: nat, part: nat)
    ensures InPart(files, [], k1, k2, part) == []
  {
  }

  ghost predicate Ascending(g: seq<nat>) {
    forall i, j :: 0 <= i < j < |g| ==> g[i] < g[j]
  }

  /** Tabs 2 to 5 list every ROM exactly once: each in the one tab it belongs to, in the order of ALL. */
  lemma {:induction false} TabsPartition(files: seq<Name>, n: nat, k1: nat, k2: nat, tab: nat)
    requires n <= |files|
    ensures var g := TabList(files, n, k1, k2, tab);
            && Ascending(g)
            && forall i: nat :: i in g <==> i < n && TabOf(files[i], k1, k2) == tab
    ensures forall a: Name :: TabOf(a, k1, k2) in {2, 3, 4, 5}
  {
    hide Letter, IsMegaCd;
    if n > 0 {
      TabsPartition(files, n - 1, k1, k2, tab);
      var g := TabList(files, n - 1, k1, k2, tab);
      assert forall i :: 0 <= i < |g| ==> g[i] in g;
    }
  }

  // ---------------------------------------------------------------- the split

  /** How many letters lie in lo..hi. */
  function Size(letters: seq<nat>, lo: int, hi: int): (n: nat)
    ensures n <= |letters|
  {
    if letters == [] then 0
    else Size(letters[..|letters| - 1], lo, hi) + if lo <= letters[|letters| - 1] <= hi then 1 else 0
  }

  /** How far the three parts are from a third each. */
  function Diff(letters: seq<nat>, k1: nat, k2: nat): nat {
    var ideal := |letters| / 3;
    Abs(Size(letters, 0, k1) - ideal) + Abs(Size(letters, k1 + 1, k2) - ideal) + Abs(Size(letters, k2 + 1, 26) - ideal)
  }

  predicate Choice(k1: nat, k2: nat) { k1 < 25 && k1 < k2 < 26 }

  predicate Before(a: nat, b: nat, k1: nat, k2: nat) { a < k1 || (a == k1 && b < k2) }

  /** The first of the best choices up to (i, j), exclusively. */
  ghost predicate BestBefore(letters: seq<nat>, k1: nat, k2: nat, i: nat, j: nat) {
    && Choice(k1, k2) && Before(k1, k2, i, j)
    && (forall a, b :: Choice(a, b) && Before(a, b, i, j) ==> Diff(letters, k1, k2) <= Diff(letters, a, b))
    && (forall a, b :: Choice(a, b) && Before(a, b, k1, k2) ==> Diff(letters, k1, k2) < Diff(letters, a, b))
  }

  lemma BestNext(letters: seq<nat>, k1: nat, k2: nat, i: nat, j: nat)
    requires Choice(i, j) && BestBefore(letters, k1, k2, i, j)
    ensures if Diff(letters, i, j) < Diff(letters, k1, k2) then BestBefore(letters, i, j, i, j + 1)
            else BestBefore(letters, k1, k2, i, j + 1)
  {
    hide Diff;
    forall a, b | Choice(a, b) && Before(a, b, i, j + 1) ensures Before(a, b, i, j) || (a == i && b == j) { }
  }

  lemma {:induction false} SizeGrows(letters: seq<nat>, lo: nat, hi: nat)
    requires lo <= hi
    ensures Size(letters, lo, hi) == Size(letters, lo, hi - 1) + Size(letters, hi, hi)
    decreases |letters|
  {
    if letters != [] { SizeGrows(letters[..|letters| - 1], lo, hi); }
  }

  lemma {:induction false} NoneOfEmpty(letters: seq<nat>, lo: nat)
    ensures Size(letters, lo, lo - 1) == 0
    decreases |letters|
  {
    if letters != [] { NoneOfEmpty(letters[..|letters| - 1], lo); }
  }

  function LettersOf(files: seq<Name>, g: seq<nat>): (l: seq<nat>)
    requires forall i :: 0 <= i < |g| ==> g[i] < |files|
    ensures |l| == |g| && forall i :: 0 <= i < |l| ==> l[i] == Letter(files[g[i]])
  {
    seq(|g|, i requires 0 <= i < |g| => Letter(files[g[i]]))
  }

  /** The lists of tabs 2, 3 and 4 are exactly as long as the three sizes that were weighed. */
  lemma {:induction false} PartSizes(files: seq<Name>, g: seq<nat>, k1: nat, k2: nat)
    requires (forall i :: 0 <= i < |g| ==> g[i] < |files|) && k1 < k2 < 26
    ensures |InPart(files, g, k1, k2, 0)| == Size(LettersOf(files, g), 0, k1)
    ensures |InPart(files, g, k1, k2, 1)| == Size(LettersOf(files, g), k1 + 1, k2)
    ensures |InPart(files, g, k1, k2, 2)| == Size(LettersOf(files, g), k2 + 1, 26)
    decreases |g|
  {
    if g != [] {
      var front := g[..|g| - 1];
      var l := LettersOf(files, g);
      assert l[..|l| - 1] == LettersOf(files, front);
      PartSizes(files, front, k1, k2);
    }
  }

  /** What is weighed: how far the lengths of those three lists are from a third of all, together. */
  lemma DiffIs(files: seq<Name>, g: seq<nat>, k1: nat, k2: nat)
    requires (forall i :: 0 <= i < |g| ==> g[i] < |files|) && k1 < k2 < 26
    ensures var d: int, third := Diff(LettersOf(files, g), k1, k2), |g| / 3;
            && d == Abs(|InPart(files, g, k1, k2, 0)| - third) + Abs(|InPart(files, g, k1, k2, 1)| - third)
                    + Abs(|InPart(files, g, k1, k2, 2)| - third)
    ensures |InPart(files, g, k1, k2, 0)| + |InPart(files, g, k1, k2, 1)| + |InPart(files, g, k1, k2, 2)| == |g|
  {
    hide Size, InPart, Letter, LettersOf;
    PartSizes(files, g, k1, k2);
    AllInParts(files, g, k1, k2);
  }

  lemma {:induction false} AllInParts(files: seq<Name>, g: seq<nat>, k1: nat, k2: nat)
    requires (forall i :: 0 <= i < |g| ==> g[i] < |files|) && k1 < k2
    ensures |InPart(files, g, k1, k2, 0)| + |InPart(files, g, k1, k2, 1)| + |InPart(files, g, k1, k2, 2)| == |g|
    decreases |g|
  {
    hide Letter;
    if g != [] { AllInParts(files, g[..|g| - 1], k1, k2); }
  }
}
