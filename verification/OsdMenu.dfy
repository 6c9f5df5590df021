/** COSDMenu's arrays: the sort, the split and the filtered lists, filled in place. */
module OsdMenu {
  import opened Basics
  import opened OsdTabs
  import opened FavoritesFile

  class COSDMenu {
    const romFiles: array<Name>
    const romSizes: array<nat>
    var romCount: nat
    const genesisIndices: array<nat>
    var genesisCount: nat
    const megaCdIndices: array<nat>
    var megaCdCount: nat
    const filteredIndices: array<nat>
    var filteredCount: nat
    const romFavorites: array<bool>
    var selectedIndex: nat
    var activeTab: nat
    var tabSplitK1: nat
    var tabSplitK2: nat
    var hasFile: bool            // SD:/roms/favorites.txt exists
    var file: seq<s8>            // and this is what it holds

    ghost predicate Sized()
      reads this
    {
      && romFiles.Length == romSizes.Length == romFavorites.Length == 1000
      && genesisIndices.Length == megaCdIndices.Length == filteredIndices.Length == 1000
      && genesisIndices != megaCdIndices && genesisIndices != filteredIndices && megaCdIndices != filteredIndices
      && romSizes != genesisIndices && romSizes != megaCdIndices && romSizes != filteredIndices
      && romCount <= MAX_ROMS
    }

    /** The ROM names found so far. */
    ghost function Files(): (f: seq<Name>)
      reads this, romFiles
      requires Sized()
      ensures |f| == romCount
    {
      romFiles[..romCount]
    }

    /** The index lists of the two kinds of ROM are up to date. */
    ghost predicate Valid()
      reads this, romFiles, genesisIndices, megaCdIndices
    {
      && Sized() && genesisCount <= MAX_ROMS && megaCdCount <= MAX_ROMS
      && genesisIndices[..genesisCount] == Kind(Files(), romCount, false)
      && megaCdIndices[..megaCdCount] == Kind(Files(), romCount, true)
    }

    constructor ()
      ensures Valid() && romCount == 0 && fresh(romFiles) && fresh(romSizes) && fresh(romFavorites)
      ensures fresh(genesisIndices) && fresh(megaCdIndices) && fresh(filteredIndices)
      ensures tabSplitK1 == 8 && tabSplitK2 == 16 && activeTab == 0
    {
      var none: Name := [];
      romFiles := new Name[MAX_ROMS](_ => none);
      romSizes := new nat[MAX_ROMS](_ => 0);
      romFavorites := new bool[MAX_ROMS](_ => false);
      genesisIndices := new nat[MAX_ROMS](_ => 0);
      megaCdIndices := new nat[MAX_ROMS](_ => 0);
      filteredIndices := new nat[MAX_ROMS](_ => 0);
      romCount, genesisCount, megaCdCount, filteredCount, selectedIndex, activeTab := 0, 0, 0, 0, 0, 0;
      hasFile, file := false, [];
      tabSplitK1, tabSplitK2 := 8, 16;
    }

    /** Names with their sizes. */
    ghost function Pairs(): (p: seq<(Name, nat)>)
      reads this, romFiles, romSizes
      requires Sized()
      ensures |p| == romCount
    {
      Zipped(romFiles[..romCount], romSizes[..romCount])
    }

    method SwapRoms(i: nat, j: nat)
      requires Sized() && i < j < romCount
      modifies romFiles, romSizes
      ensures Files() == Swapped(old(Files()), i, j) && Pairs() == Swapped(old(Pairs()), i, j)
    {
      var tempFile := romFiles[i];
      romFiles[i] := romFiles[j];
      romFiles[j] := tempFile;
      var tempSize := romSizes[i];
      romSizes[i] := romSizes[j];
      romSizes[j] := tempSize;
    }

    /** The inner loop: brings the least of the names from i on to place i. */
    method SelectRom(i: nat)
      requires Sized() && i < romCount && Selecting(Files(), i, i + 1)
      modifies romFiles, romSizes
      ensures Selecting(Files(), i, romCount) && multiset(Pairs()) == multiset(old(Pairs()))
    {
      hide Compare, Selecting, Zipped;
      var j := i + 1;
      while j < romCount
        invariant i < j <= romCount && multiset(Pairs()) == multiset(old(Pairs()))
        invariant Selecting(Files(), i, j)
      {
        SelectingNext(Files(), i, j);
        if Compare(romFiles[i], romFiles[j]) > 0 {
          SwapPermutes(Pairs(), i, j);
          SwapRoms(i, j);
        }
        j := j + 1;
      }
    }

    /** The nested loops sort the names, and every size stays with its name. */
    method SortRoms()
      requires Sized()
      modifies romFiles, romSizes
      ensures Sorted(Files()) && multiset(Pairs()) == multiset(old(Pairs()))
    {
      hide Compare, Selecting, Sorted, Zipped;
      if romCount > 0 { NothingSelected(Files()); }
      var i := 0;
      while i + 1 < romCount
        invariant i <= romCount && multiset(Pairs()) == multiset(old(Pairs()))
        invariant i < romCount ==> Selecting(Files(), i, i + 1)
        invariant i == romCount ==> romCount == 0
      {
        SelectRom(i);
        SelectingRow(Files(), i);
        i := i + 1;
      }
      SelectedAll(Files(), i);
    }

    /** The two index lists, in the order of the names. */
    method Categorise()
      requires Sized()
      modifies this`genesisCount, this`megaCdCount, genesisIndices, megaCdIndices
      ensures Valid()
    {
      hide IsMegaCd;
      genesisCount, megaCdCount := 0, 0;
      var i := 0;
      while i < romCount
        invariant i <= romCount && genesisCount <= i && megaCdCount <= i
        invariant genesisIndices[..genesisCount] == Kind(Files(), i, false)
        invariant megaCdIndices[..megaCdCount] == Kind(Files(), i, true)
      {
        if IsMegaCd(romFiles[i]) {
          megaCdIndices[megaCdCount] := i;
          megaCdCount := megaCdCount + 1;
        } else {
          genesisIndices[genesisCount] := i;
          genesisCount := genesisCount + 1;
        }
        i := i + 1;
      }
    }

    ghost function Genesis(): (g: seq<nat>)
      reads this, romFiles, genesisIndices, megaCdIndices
      requires Valid()
      ensures |g| == genesisCount && forall i :: 0 <= i < |g| ==> g[i] < |Files()|
    {
      genesisIndices[..genesisCount]
    }

    ghost function Letters(): (l: seq<nat>)
      reads this, romFiles, genesisIndices, megaCdIndices
      requires Valid()
      ensures |l| == genesisCount
    {
      LettersOf(Files(), Genesis())
    }

    method CountLetters() returns (counts: array<nat>)
      requires Valid()
      ensures fresh(counts) && counts.Length == 27
      ensures forall l :: 0 <= l < 27 ==> counts[l] == Size(Letters(), l, l)
    {
      hide Letter, Size;
      counts := new nat[27](_ => 0);
      var i := 0;
      ghost var letters := Letters();
      NoLetters(letters);
      while i < genesisCount
        invariant i <= genesisCount && letters == Letters()
        invariant forall l :: 0 <= l < 27 ==> counts[l] == Size(letters[..i], l, l)
      {
        var idx := Letter(romFiles[genesisIndices[i]]);
        OneMore(letters, i);
        counts[idx] := counts[idx] + 1;
        i := i + 1;
      }
      assert letters[..i] == letters;
    }

    method SumRange(counts: array<nat>, lo: nat, hi: nat, ghost letters: seq<nat>) returns (size: nat)
      requires counts.Length == 27 && lo <= hi + 1 && hi < 27
      requires forall l :: 0 <= l < 27 ==> counts[l] == Size(letters, l, l)
      ensures size == Size(letters, lo, hi)
    {
      hide Size;
      size := 0;
      var i := lo;
      NoneOfEmpty(letters, lo);
      while i <= hi
        invariant lo <= i <= hi + 1 && size == Size(letters, lo, i - 1)
      {
        SizeGrows(letters, lo, i);
        size := size + counts[i];
        i := i + 1;
      }
    }

    method Weigh(counts: array<nat>, k1: nat, k2: nat, ghost letters: seq<nat>) returns (diff: int)
      requires counts.Length == 27 && Choice(k1, k2) && |letters| == genesisCount
      requires forall l :: 0 <= l < 27 ==> counts[l] == Size(letters, l, l)
      ensures diff == Diff(letters, k1, k2)
    {
      hide Size;
      var size0 := SumRange(counts, 0, k1, letters);
      var size1 := SumRange(counts, k1 + 1, k2, letters);
      var size2 := SumRange(counts, k2 + 1, 26, letters);
      var ideal := genesisCount / 3;
      var d0: int := size0 - ideal;
      if d0 < 0 { d0 := -d0; }
      var d1: int := size1 - ideal;
      if d1 < 0 { d1 := -d1; }
      var d2: int := size2 - ideal;
      if d2 < 0 { d2 := -d2; }
      diff := d0 + d1 + d2;
    }

    /** The lexicographically first of the splits with the least deviation. */
    method CalculateTabSplit()
      requires Valid()
      modifies this`tabSplitK1, this`tabSplitK2
      ensures Valid()
      ensures genesisCount == 0 ==> tabSplitK1 == 8 && tabSplitK2 == 16
      ensures genesisCount > 0 ==> FirstBest(Letters(), tabSplitK1, tabSplitK2)
      ensures tabSplitK1 < tabSplitK2 < 26
    {
      hide Size, Letter, BestBefore, Diff, FirstBest;
      var counts := CountLetters();
      tabSplitK1, tabSplitK2 := 8, 16;
      var minDiff := 1000000;
      ghost var letters := Letters();
      if genesisCount == 0 { return; }
      var k1 := 0;
      while k1 < 25
        invariant k1 <= 25 && |letters| == genesisCount
        invariant forall l :: 0 <= l < 27 ==> counts[l] == Size(letters, l, l)
        invariant Tried(letters, minDiff, k1, 0)
      {
        StartRow(letters, tabSplitK1, tabSplitK2, minDiff, k1);
        minDiff := TryRow(counts, k1, minDiff, letters);
        EndRow(letters, tabSplitK1, tabSplitK2, minDiff, k1);
        k1 := k1 + 1;
      }
      assert Letters() == letters;
      BestOfAll(letters, tabSplitK1, tabSplitK2);
    }

    /** The fields hold the best split up to (k1, k2), or nothing was tried yet. */
    ghost predicate Tried(letters: seq<nat>, minDiff: int, k1: nat, k2: nat)
      reads this
    {
      BestSoFar(letters, tabSplitK1, tabSplitK2, minDiff, k1, k2)
    }

    method TryRow(counts: array<nat>, k1: nat, least: int, ghost letters: seq<nat>) returns (minDiff: int)
      requires counts.Length == 27 && k1 < 25 && |letters| == genesisCount <= MAX_ROMS
      requires forall l :: 0 <= l < 27 ==> counts[l] == Size(letters, l, l)
      requires Tried(letters, least, k1, k1 + 1)
      modifies this`tabSplitK1, this`tabSplitK2
      ensures Tried(letters, minDiff, k1, 26)
    {
      hide Size, BestBefore, Diff;
      minDiff := least;
      var k2 := k1 + 1;
      while k2 < 26
        invariant k1 < k2 <= 26
        invariant Tried(letters, minDiff, k1, k2)
      {
        var diff := Weigh(counts, k1, k2, letters);
        TriedNext(letters, tabSplitK1, tabSplitK2, minDiff, k1, k2);
        if diff < minDiff {
          minDiff := diff;
          tabSplitK1 := k1;
          tabSplitK2 := k2;
        }
        k2 := k2 + 1;
      }
    }

    /** What a tab shows: everything, the favourites, or the ROMs that belong to it. */
    ghost function Shown(tab: nat): seq<nat>
      reads this, romFiles, romFavorites
      requires Sized()
    {
      if tab == 0 then seq(romCount, i => i)
      else if tab == 1 then FavoriteList(romFavorites[..], romCount)
      else TabList(Files(), romCount, tabSplitK1, tabSplitK2, tab)
    }

    method BuildFilteredList()
      requires Valid() && activeTab <= 5 && tabSplitK1 < tabSplitK2 < 26
      modifies this`filteredCount, filteredIndices
      ensures Valid() && filteredCount <= MAX_ROMS && filteredIndices[..filteredCount] == Shown(activeTab)
      ensures Lists(filteredIndices[..filteredCount], Files(), romFavorites[..romCount], tabSplitK1, tabSplitK2, activeTab)
    {
      hide TabList, InPart, Kind, FavoriteList, Lists;
      AllListed(seq(romCount, i => i), romCount);
      FavoritesListed(romFavorites[..], romCount);
      TabsPartition(Files(), romCount, tabSplitK1, tabSplitK2, activeTab);
      ListsShown(Shown(activeTab), Files(), romFavorites[..romCount], tabSplitK1, tabSplitK2, activeTab);
      filteredCount := 0;
      if activeTab == 0 {
        ListAll();
      } else if activeTab == 1 {
        ListFavorites();
      } else if activeTab <= 4 {
        TabListIs(Files(), romCount, tabSplitK1, tabSplitK2, activeTab - 2);
        ListPart();
      } else {
        TabListIs(Files(), romCount, tabSplitK1, tabSplitK2, 0);
        ListMegaCd();
      }
    }

    method ListAll()
      requires Valid() && filteredCount == 0
      modifies this`filteredCount, filteredIndices
      ensures Valid() && filteredCount == romCount && filteredIndices[..filteredCount] == seq(romCount, i => i)
    {
      var i := 0;
      while i < romCount
        invariant i == filteredCount <= romCount && Valid()
        invariant forall k :: 0 <= k < i ==> filteredIndices[k] == k
      {
        filteredIndices[filteredCount] := i;
        filteredCount := filteredCount + 1;
        i := i + 1;
      }
    }

    method ListFavorites()
      requires Valid() && filteredCount == 0
      modifies this`filteredCount, filteredIndices
      ensures Valid() && filteredCount <= MAX_ROMS && filteredIndices[..filteredCount] == FavoriteList(romFavorites[..], romCount)
    {
      var i := 0;
      while i < romCount
        invariant filteredCount <= i <= romCount && Valid()
        invariant filteredIndices[..filteredCount] == FavoriteList(romFavorites[..], i)
      {
        if romFavorites[i] {
          filteredIndices[filteredCount] := i;
          filteredCount := filteredCount + 1;
        }
        i := i + 1;
      }
    }

    method ListPart()
      requires Valid() && filteredCount == 0 && 2 <= activeTab <= 4 && tabSplitK1 < tabSplitK2
      modifies this`filteredCount, filteredIndices
      ensures Valid() && filteredCount <= MAX_ROMS
      ensures filteredIndices[..filteredCount] == InPart(Files(), Genesis(), tabSplitK1, tabSplitK2, activeTab - 2)
    {
      hide Letter, InPart;
      var part := activeTab - 2;
      var i := 0;
      ghost var g, f := Genesis(), Files();
      NoParts(f, tabSplitK1, tabSplitK2, part);
      assert g[..0] == [];
      while i < genesisCount
        invariant filteredCount <= i <= genesisCount && Valid() && Genesis() == g && Files() == f
        invariant filteredIndices[..filteredCount] == InPart(f, g[..i], tabSplitK1, tabSplitK2, part)
      {
        var rom := genesisIndices[i];
        var idx := Letter(romFiles[rom]);
        assert rom == g[i] && g[..i + 1] == g[..i] + [rom];
        InPartNext(f, g[..i], rom, tabSplitK1, tabSplitK2, part);
        if (part == 0 && idx <= tabSplitK1) || (part == 1 && idx > tabSplitK1 && idx <= tabSplitK2) || (part == 2 && idx > tabSplitK2) {
          filteredIndices[filteredCount] := rom;
          filteredCount := filteredCount + 1;
        }
        i := i + 1;
      }
      assert g[..i] == g;
    }

    method ListMegaCd()
      requires Valid() && filteredCount == 0
      modifies this`filteredCount, filteredIndices
      ensures Valid() && filteredCount == megaCdCount && filteredIndices[..filteredCount] == megaCdIndices[..megaCdCount]
    {
      var i := 0;
      while i < megaCdCount
        invariant i == filteredCount <= megaCdCount && Valid()
        invariant forall k :: 0 <= k < i ==> filteredIndices[k] == megaCdIndices[k]
      {
        filteredIndices[filteredCount] := megaCdIndices[i];
        filteredCount := filteredCount + 1;
        i := i + 1;
      }
    }

    // -------------------------------------------------------------- favorites.txt

    ghost function Store(): (s: Store)
      reads this, romFiles, romFavorites
      requires Sized()
      ensures |s.flags| == |Files()|
    {
      FavoritesFile.Store(romFavorites[..romCount], file)
    }

    /** f_gets: bytes one by one, up to a line feed, the end, or a full buffer. */
    method FGets(pos: nat) returns (line: seq<s8>, next: nat)
      requires pos <= |file|
      ensures next == pos + Taken(file[pos..], LINE) && next <= |file| && line == file[pos..next]
    {
      var nc := 0;
      next := pos;
      ghost var total := Taken(file[pos..], LINE);
      while nc < LINE && next < |file|
        invariant nc <= LINE && next == pos + nc <= |file|
        invariant total == nc + Taken(file[next..], LINE - nc)
      {
        assert file[next..][1..] == file[next + 1..];
        nc := nc + 1;
        next := next + 1;
        if file[next - 1] == LF { break; }
      }
      line := file[pos..next];
    }

    method MarkRom(line: Name)
      requires Sized()
      modifies romFavorites
      ensures var i := Find(Files(), line);
              romFavorites[..] == if i < romCount then old(romFavorites[..])[i := true] else old(romFavorites[..])
    {
      var i := 0;
      while i < romCount
        invariant i <= romCount && Find(Files(), line) == i + Find(Files()[i..], line)
        invariant romFavorites[..] == old(romFavorites[..])
      {
        assert Files()[i..][0] == romFiles[i] && Files()[i..][1..] == Files()[i + 1..];
        if romFiles[i] == line {
          romFavorites[i] := true;
          return;
        }
        i := i + 1;
      }
    }

    method ClearFavorites()
      requires Sized()
      modifies romFavorites
      ensures forall k :: 0 <= k < MAX_ROMS ==> !romFavorites[k]
    {
      var i := 0;
      while i < MAX_ROMS
        invariant i <= MAX_ROMS && forall k :: 0 <= k < i ==> !romFavorites[k]
      {
        romFavorites[i] := false;
        i := i + 1;
      }
    }

    method LoadFavorites()
      requires Sized()
      modifies romFavorites
      ensures romFavorites[..romCount] == Marked(Files(), if hasFile then Lines(file) else [])
    {
      hide Stripped, CString, Taken, Find, Marked, Lines;
      ClearFavorites();
      ghost var done: seq<Name> := [];
      NothingMarked(Files(), romFavorites[..romCount]);
      if !hasFile { return; }
      var pos := 0;
      assert file[0..] == file;
      while pos < |file|
        invariant pos <= |file| && romFavorites[..romCount] == Marked(Files(), done)
        invariant Lines(file) == done + Lines(file[pos..])
        decreases |file| - pos
      {
        var line, next := FGets(pos);
        NextLine(file, pos, next);
        var name := Stripped(CString(line));
        pos := next;
        if name == [] {
          assert [] + Lines(file[next..]) == Lines(file[next..]);
        } else {
          MarkRom(name);
          MarkedNext(Files(), done, name);
          done := done + [name];
        }
      }
      NoLines();
      assert file[pos..] == [] && done + [] == done;
    }

    /** `opens` says whether the file can be opened for writing. */
    method SaveFavorites(opens: bool)
      requires Sized()
      modifies this`file, this`hasFile
      ensures if opens then hasFile && file == Saved(Files(), romFavorites[..romCount])
              else file == old(file) && hasFile == old(hasFile)
    {
      if !opens { return; }
      hasFile, file := true, [];
      var i := 0;
      while i < romCount
        invariant i <= romCount && hasFile
        invariant file == Saved(Files()[..i], romFavorites[..i])
      {
        assert Files()[..i + 1][..i] == Files()[..i] && romFavorites[..i + 1][..i] == romFavorites[..i];
        if romFavorites[i] {
          file := file + (romFiles[i] + [LF]);
        }
        i := i + 1;
      }
      assert Files()[..i] == Files();
    }

    method MarkCurrent(on: bool, opens: bool)
      requires Sized() && filteredCount <= MAX_ROMS
      requires forall k :: 0 <= k < filteredCount ==> filteredIndices[k] < romCount
      modifies this`file, this`hasFile, romFavorites
      ensures Sized() && Files() == old(Files())
      ensures romFavorites[..] == if selectedIndex < filteredCount then old(romFavorites[..])[old(filteredIndices[selectedIndex]) := on]
                                  else old(romFavorites[..])
      ensures !opens ==> file == old(file) && hasFile == old(hasFile)
      ensures opens ==> Store() == Step(old(Files()), old(Store()),
                                        if selectedIndex < filteredCount then Mark(old(filteredIndices[selectedIndex]), on) else NoCurrent)
    {
      if filteredCount == 0 || selectedIndex >= filteredCount { return; }
      var rom := filteredIndices[selectedIndex];
      romFavorites[rom] := on;
      SaveFavorites(opens);
      assert romFavorites[..romCount] == old(romFavorites[..romCount])[rom := on];
    }
  }

  lemma NothingMarked(files: seq<Name>, flags: seq<bool>)
    requires |flags| == |files| && forall k :: 0 <= k < |flags| ==> !flags[k]
    ensures flags == Marked(files, [])
  {
  }

  lemma NoLines()
    ensures Lines([]) == []
  {
  }

  lemma MarkedNext(files: seq<Name>, done: seq<Name>, name: Name)
    ensures var i := Find(files, name);
            Marked(files, done + [name]) == if i < |files| then Marked(files, done)[i := true] else Marked(files, done)
  {
    assert (done + [name])[..|done|] == done;
  }

  lemma NextLine(file: seq<s8>, pos: nat, next: nat)
    requires pos < |file| && next == pos + Taken(file[pos..], LINE) && next <= |file|
    ensures pos < next
    ensures var line := Stripped(CString(file[pos..next]));
            Lines(file[pos..]) == (if line == [] then [] else [line]) + Lines(file[next..])
  {
    var rest := file[pos..];
    assert rest[..next - pos] == file[pos..next] && rest[next - pos..] == file[next..];
  }

  /** The favourites among the first n ROMs, in order. */
  function FavoriteList(flags: seq<bool>, n: nat): (g: seq<nat>)
    requires n <= |flags|
    ensures |g| <= n
  {
    if n == 0 then [] else FavoriteList(flags, n - 1) + if flags[n - 1] then [n - 1] else []
  }

  /** The FAV tab lists the marked ROMs, each once, in the order of ALL. */
  lemma {:induction false} FavoritesListed(flags: seq<bool>, n: nat)
    requires n <= |flags|
    ensures Ascending(FavoriteList(flags, n))
    ensures forall i: nat :: i in FavoriteList(flags, n) <==> i < n && flags[i]
  {
    if n > 0 {
      FavoritesListed(flags, n - 1);
      var g := FavoriteList(flags, n - 1);
      assert forall i :: 0 <= i < |g| ==> g[i] in g;
    }
  }

  /** What a tab lists, in the order of ALL: everything, the favourites, or the ROMs of that tab. */
  ghost predicate Lists(g: seq<nat>, files: seq<Name>, flags: seq<bool>, k1: nat, k2: nat, tab: nat)
    requires |flags| == |files|
  {
    && Ascending(g)
    && forall i: nat :: i in g <==>
         i < |files| && (tab == 0 || (tab == 1 && flags[i]) || (2 <= tab && TabOf(files[i], k1, k2) == tab))
  }

  lemma AllListed(g: seq<nat>, n: nat)
    requires g == seq(n, i => i)
    ensures Ascending(g) && forall i: nat :: i in g <==> i < n
  {
    forall i: nat | i < n ensures i in g { assert g[i] == i; }
  }

  lemma ListsShown(g: seq<nat>, files: seq<Name>, flags: seq<bool>, k1: nat, k2: nat, tab: nat)
    requires |flags| == |files| && Ascending(g)
    requires tab == 0 ==> forall i: nat :: i in g <==> i < |files|
    requires tab == 1 ==> forall i: nat :: i in g <==> i < |files| && flags[i]
    requires tab >= 2 ==> forall i: nat :: i in g <==> i < |files| && TabOf(files[i], k1, k2) == tab
    ensures Lists(g, files, flags, k1, k2, tab)
  {
    hide TabOf;
  }

  lemma NothingSelected(s: seq<Name>)
    requires s != []
    ensures Selecting(s, 0, 1)
  {
  }

  lemma SelectingRow(s: seq<Name>, i: nat)
    requires Selecting(s, i, |s|)
    ensures i + 1 < |s| ==> Selecting(s, i + 1, i + 2)
  {
  }

  lemma SelectedAll(s: seq<Name>, i: nat)
    requires |s| == 0 || (i + 1 == |s| && Selecting(s, i, i + 1))
    ensures Sorted(s)
  {
  }

  ghost predicate BestSoFar(letters: seq<nat>, a: nat, b: nat, minDiff: int, k1: nat, k2: nat) {
    if k1 == 0 && k2 <= 1 then minDiff == 1000000
    else BestBefore(letters, a, b, k1, k2) && minDiff == Diff(letters, a, b)
  }

  lemma StartRow(letters: seq<nat>, a: nat, b: nat, minDiff: int, k1: nat)
    requires BestSoFar(letters, a, b, minDiff, k1, 0)
    ensures BestSoFar(letters, a, b, minDiff, k1, k1 + 1)
  {
    hide Diff;
  }

  lemma EndRow(letters: seq<nat>, a: nat, b: nat, minDiff: int, k1: nat)
    requires BestSoFar(letters, a, b, minDiff, k1, 26)
    ensures BestSoFar(letters, a, b, minDiff, k1 + 1, 0)
  {
    hide Diff;
  }

  /** No split is better, and every split before this one is worse. */
  ghost predicate FirstBest(letters: seq<nat>, k1: nat, k2: nat) {
    && Choice(k1, k2)
    && (forall a: nat, b: nat :: Choice(a, b) ==> Diff(letters, k1, k2) <= Diff(letters, a, b))
    && (forall a: nat, b: nat :: Choice(a, b) && Before(a, b, k1, k2) ==> Diff(letters, k1, k2) < Diff(letters, a, b))
  }

  lemma BestOfAll(letters: seq<nat>, k1: nat, k2: nat)
    requires BestBefore(letters, k1, k2, 25, 0)
    ensures FirstBest(letters, k1, k2) && k1 < k2 < 26
  {
    hide Diff;
    forall a: nat, b: nat | Choice(a, b) ensures Before(a, b, 25, 0) { }
  }

  lemma TriedNext(letters: seq<nat>, a: nat, b: nat, minDiff: int, k1: nat, k2: nat)
    requires Choice(k1, k2) && |letters| <= MAX_ROMS && BestSoFar(letters, a, b, minDiff, k1, k2)
    ensures var d := Diff(letters, k1, k2);
            if d < minDiff then BestSoFar(letters, k1, k2, d, k1, k2 + 1) else BestSoFar(letters, a, b, minDiff, k1, k2 + 1)
  {
    DiffSmall(letters, k1, k2);
    hide Diff, BestBefore;
    if k1 == 0 && k2 == 1 { BestFirst(letters); } else { BestNext(letters, a, b, k1, k2); }
  }

  function Zipped<A, B>(a: seq<A>, b: seq<B>): (z: seq<(A, B)>)
    requires |a| == |b|
    ensures |z| == |a|
  {
    seq(|a|, i requires 0 <= i < |a| => (a[i], b[i]))
  }

  lemma NoLetters(letters: seq<nat>)
    ensures forall l: nat :: Size(letters[..0], l, l) == 0
  {
  }

  lemma OneMore(letters: seq<nat>, i: nat)
    requires i < |letters|
    ensures forall l: nat :: Size(letters[..i + 1], l, l) == Size(letters[..i], l, l) + if letters[i] == l then 1 else 0
  {
    assert letters[..i + 1][..i] == letters[..i];
  }

  lemma BestFirst(letters: seq<nat>)
    ensures BestBefore(letters, 0, 1, 0, 2)
  {
    hide Diff;
    forall a, b | Choice(a, b) && Before(a, b, 0, 2) ensures a == 0 && b == 1 { }
  }

  /** No deviation reaches the initial minimum. */
  lemma DiffSmall(letters: seq<nat>, k1: nat, k2: nat)
    requires |letters| <= MAX_ROMS
    ensures Diff(letters, k1, k2) < 1000000
  {
  }
}
