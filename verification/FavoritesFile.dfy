/** favorites.txt: one name a line, written by fprintf-like calls and read back with f_gets. */
module FavoritesFile {
  import opened Basics
  import opened OsdTabs

  const LF: s8 := 10
  const CR: s8 := 13
  const LINE: nat := 127     // f_gets's buffer of 128 less the NUL

  // ---------------------------------------------------------------- f_gets

  /** How many bytes one call takes: up to a line feed, but no more than `room`. */
  function Taken(rest: seq<s8>, room: nat): (n: nat)
    ensures n <= |rest| && n <= room
    ensures rest != [] && room > 0 ==> n > 0
  {
    if rest == [] || room == 0 then 0
    else if rest[0] == LF then 1
    else 1 + Taken(rest[1..], room - 1)
  }

  /** What strlen sees of a buffer. */
  function CString(s: seq<s8>): (c: Name)
    ensures c <= s
  {
    if s == [] || s[0] == 0 then [] else [s[0]] + CString(s[1..])
  }

  /** Without the line feeds and carriage returns at the end. */
  function Stripped(s: Name): (t: Name)
    ensures t <= s
  {
    if s != [] && (s[|s| - 1] == LF || s[|s| - 1] == CR) then Stripped(Front(s)) else s
  }

  function Front(s: Name): (t: Name)
    requires s != []
    ensures |t| == |s| - 1 && t <= s
  {
    var t := s[..|s| - 1];
    assert forall i :: 0 <= i < |t| ==> t[i] in s;
    t
  }

  /** The lines LoadFavorites looks up: what each f_gets returns, stripped, the empty ones left out. */
  function Lines(file: seq<s8>): seq<Name>
    decreases |file|
  {
    if file == [] then []
    else
      var n := Taken(file, LINE);
      var line := Stripped(CString(file[..n]));
      (if line == [] then [] else [line]) + Lines(file[n..])
  }

  // ---------------------------------------------------------------- the favourites

  /** The first ROM of that name. */
  function Find(files: seq<Name>, name: Name): (i: nat)
    ensures i <= |files| && (i < |files| ==> files[i] == name) && forall k :: 0 <= k < i ==> files[k] != name
  {
    if files == [] then 0 else if files[0] == name then 0 else 1 + Find(files[1..], name)
  }

  /** The marks after looking up some lines. */
  function Marked(files: seq<Name>, lines: seq<Name>): (flags: seq<bool>)
    ensures |flags| == |files|
  {
    if lines == [] then seq(|files|, _ => false)
    else
      var flags, i := Marked(files, lines[..|lines| - 1]), Find(files, lines[|lines| - 1]);
      if i < |files| then flags[i := true] else flags
  }

  /** What SaveFavorites writes. */
  function Saved(files: seq<Name>, flags: seq<bool>): seq<s8>
    requires |flags| == |files|
  {
    if files == [] then []
    else
      var n := |files| - 1;
      Saved(files[..n], flags[..n]) + if flags[n] then files[n] + [LF] else []
  }

  function MarkedNames(files: seq<Name>, flags: seq<bool>): seq<Name>
    requires |flags| == |files|
  {
    if files == [] then []
    else
      var n := |files| - 1;
      MarkedNames(files[..n], flags[..n]) + if flags[n] then [files[n]] else []
  }

  /** A name a line can hold: not empty, short enough, no line feed, no carriage return at the end. */
  predicate Plain(a: Name) {
    0 < |a| <= 127 && 10 !in a && a[|a| - 1] != 13
  }

  ghost predicate AllPlain(files: seq<Name>) {
    forall i :: 0 <= i < |files| ==> Plain(files[i])
  }

  // ---------------------------------------------------------------- saving and loading

  lemma {:induction false} TakenIs(a: seq<s8>, rest: seq<s8>, room: nat)
    requires LF !in a
    ensures Taken(a + [LF] + rest, room) == if |a| < room then |a| + 1 else room
  {
    var s := a + [LF] + rest;
    if a != [] && room > 0 {
      assert s[0] == a[0] && a[0] in a;
      assert s[1..] == a[1..] + [LF] + rest;
      TakenIs(a[1..], rest, room - 1);
    }
  }

  lemma {:induction false} NoNul(a: Name)
    ensures CString(a) == a
  {
    if a != [] { NoNul(Tail(a)); }
  }

  lemma StripsToName(a: Name, n: nat)
    requires Plain(a) && n <= 1
    ensures var s := a + seq(n, _ => LF); 0 !in s && Stripped(CString(s)) == a
  {
    var s: Name := a + seq(n, _ => LF);
    NoNul(s);
    assert s == a + if n == 0 then [] else [LF];
    if n == 1 { assert Front(s) == a; }
  }

  /** A line is read back as it was written; the line feed behind a name of 127 bytes comes with a call
      of its own, and is passed over. */
  lemma LineRead(a: Name, rest: seq<s8>)
    requires Plain(a)
    ensures Lines(a + [10] + rest) == [a] + Lines(rest)
  {
    hide Lines;
    if |a| < LINE { ShortLine(a, rest); } else { LongLine(a, rest); }
  }

  lemma ShortLine(a: Name, rest: seq<s8>)
    requires Plain(a) && |a| < LINE
    ensures Lines(a + [LF] + rest) == [a] + Lines(rest)
  {
    hide Taken, Stripped, CString;
    var s := a + [LF] + rest;
    TakenIs(a, rest, LINE);
    StripsToName(a, 1);
    assert s[..|a| + 1] == a + seq(1, _ => LF) && s[|a| + 1..] == rest;
  }

  lemma LongLine(a: Name, rest: seq<s8>)
    requires Plain(a) && |a| == LINE
    ensures Lines(a + [LF] + rest) == [a] + Lines(rest)
  {
    hide Taken, Stripped, CString;
    var s := a + [LF] + rest;
    TakenIs(a, rest, LINE);
    StripsToName(a, 0);
    assert s[..|a|] == a + seq(0, _ => LF) && s[|a|..] == [LF] + rest;
    assert Lines(s) == [a] + Lines([LF] + rest);
    LoneLineFeed(rest);
  }

  /** A line that ends in carriage return and line feed is the same name. */
  lemma CrLfLineRead(a: Name, rest: seq<s8>)
    requires Plain(a) && |a| <= 125
    ensures Lines(a + [13, 10] + rest) == [a] + Lines(rest)
  {
    var line: Name := a + [13];
    hide Taken, Stripped, CString;
    assert 10 !in line;
    var s := line + [10] + rest;
    assert a + [13, 10] + rest == s;
    TakenIs(line, rest, LINE);
    StripsBoth(a);
    assert s[..|line| + 1] == line + [10] && s[|line| + 1..] == rest;
  }

  lemma StripsBoth(a: Name)
    requires Plain(a)
    ensures var s := a + [13] + [10]; 0 !in s && Stripped(CString(s)) == a
  {
    var s, t: Name := a + [13] + [10], a + [13];
    NoNul(s);
    assert Front(s) == t && Front(t) == a;
    assert s[|s| - 1] == 10 && t[|t| - 1] == 13;
    assert a[|a| - 1] in a;
    assert Stripped(s) == Stripped(t) == Stripped(a) == a;
  }

  /** Of a longer line only pieces of 127 bytes are seen. */
  lemma LongerLineSplits(a: Name, rest: seq<s8>)
    requires |a| > 127 && LF !in a && CR !in a
    ensures Lines(a + [10] + rest) == [a[..127]] + Lines(a[127..] + [10] + rest)
  {
    var s := a + [10] + rest;
    hide Taken, CString;
    TakenIs(a, rest, LINE);
    assert s[..127] == a[..127] && s[127..] == a[127..] + [10] + rest;
    assert forall i :: 0 <= i < 127 ==> a[..127][i] in a;
    NoNul(a[..127]);
  }

  lemma LoneLineFeed(rest: seq<s8>)
    ensures Lines([LF] + rest) == Lines(rest)
  {
    var s := [LF] + rest;
    TakenIs([], rest, LINE);
    assert s == [] + [LF] + rest;
    var line: Name := [LF];
    assert s[..1] == line && s[1..] == rest;
    NoNul(line);
    assert Front(line) == [];
  }

  /** All lines are the marked names, in order, whatever lines follow. */
  lemma {:induction false} SavedLines(files: seq<Name>, flags: seq<bool>, rest: seq<s8>)
    requires |flags| == |files| && AllPlain(files)
    ensures Lines(Saved(files, flags) + rest) == MarkedNames(files, flags) + Lines(rest)
    decreases |files|
  {
    hide Lines, Plain;
    if files == [] {
      assert Saved(files, flags) + rest == rest;
    } else {
      var n := |files| - 1;
      var front := Saved(files[..n], flags[..n]);
      var line := if flags[n] then files[n] + [LF] + rest else rest;
      assert Saved(files, flags) + rest == front + line;
      SavedLines(files[..n], flags[..n], line);
      if flags[n] { LineRead(files[n], rest); }
    }
  }

  lemma {:induction false} MarkedIff(files: seq<Name>, lines: seq<Name>, i: nat)
    requires Distinct(files) && i < |files|
    ensures Marked(files, lines)[i] <==> files[i] in lines
  {
    if lines != [] {
      var last := lines[|lines| - 1];
      MarkedIff(files, lines[..|lines| - 1], i);
      assert lines == lines[..|lines| - 1] + [last];
      var k := Find(files, last);
    }
  }

  lemma {:induction false} NamesIff(files: seq<Name>, flags: seq<bool>, i: nat)
    requires |flags| == |files| && Distinct(files) && i < |files|
    ensures files[i] in MarkedNames(files, flags) <==> flags[i]
    decreases |files|
  {
    var n := |files| - 1;
    if i < n {
      NamesIff(files[..n], flags[..n], i);
    } else {
      NamesFrom(files[..n], flags[..n]);
    }
  }

  lemma {:induction false} NamesFrom(files: seq<Name>, flags: seq<bool>)
    requires |flags| == |files|
    ensures forall a :: a in MarkedNames(files, flags) ==> a in files
    decreases |files|
  {
    if files != [] {
      var n := |files| - 1;
      NamesFrom(files[..n], flags[..n]);
      assert files == files[..n] + [files[n]];
    }
  }

  /** The file denotes the marks it is read back as. */
  predicate Denotes(file: seq<s8>, files: seq<Name>, flags: seq<bool>) {
    Marked(files, Lines(file)) == flags
  }

  /** Saving and loading restores the same favourites. */
  lemma SaveThenLoad(files: seq<Name>, flags: seq<bool>)
    requires |flags| == |files| && Distinct(files) && AllPlain(files)
    ensures Denotes(Saved(files, flags), files, flags)
  {
    SavedLines(files, flags, []);
    assert Saved(files, flags) + [] == Saved(files, flags);
    forall i | 0 <= i < |files| ensures Marked(files, Lines(Saved(files, flags)))[i] == flags[i] {
      MarkedIff(files, Lines(Saved(files, flags)), i);
      NamesIff(files, flags, i);
    }
  }

  /** A ROM whose name another one has before it is never marked. */
  lemma {:induction false} NeverMarked(files: seq<Name>, lines: seq<Name>, i: nat, j: nat)
    requires i < j < |files| && files[i] == files[j]
    ensures !Marked(files, lines)[j]
    decreases |lines|
  {
    if lines != [] {
      NeverMarked(files, lines[..|lines| - 1], i, j);
      NotTheSecond(files, lines[|lines| - 1], i, j);
    }
  }

  lemma NotTheSecond(files: seq<Name>, name: Name, i: nat, j: nat)
    requires i < j < |files| && files[i] == files[j]
    ensures Find(files, name) != j
  {
  }

  /** Every set of marks is restored if and only if no two ROMs have the same name. */
  lemma RestoresIffDistinct(files: seq<Name>)
    requires AllPlain(files)
    ensures (forall flags: seq<bool> :: |flags| == |files| ==> Denotes(Saved(files, flags), files, flags)) <==> Distinct(files)
  {
    hide Denotes, Saved, Plain;
    if Distinct(files) {
      forall flags: seq<bool> | |flags| == |files| ensures Denotes(Saved(files, flags), files, flags) {
        SaveThenLoad(files, flags);
      }
    } else {
      var i, j :| 0 <= i < j < |files| && files[i] == files[j];
      LosesSecond(files, Repeat(true, |files|), i, j);
    }
  }

  lemma LosesSecond(files: seq<Name>, flags: seq<bool>, i: nat, j: nat)
    requires i < j < |files| == |flags| && files[i] == files[j] && flags[j]
    ensures !Denotes(Saved(files, flags), files, flags)
  {
    NeverMarked(files, Lines(Saved(files, flags)), i, j);
  }

  /** The shortest such case: two equal names, and a mark on the second. */
  lemma SecondOfTwo(a: Name)
    ensures !Denotes(Saved([a, a], [false, true]), [a, a], [false, true])
  {
    LosesSecond([a, a], [false, true], 0, 1);
  }

  // ---------------------------------------------------------------- runs

  /** FavoriteCurrent or UnfavoriteCurrent on a ROM; None when the menu has no current entry. */
  datatype Mark = Mark(rom: nat, on: bool) | NoCurrent

  datatype Store = Store(flags: seq<bool>, file: seq<s8>)

  function Step(files: seq<Name>, s: Store, m: Mark): (s': Store)
    requires |s.flags| == |files|
    ensures |s'.flags| == |files|
  {
    if m.NoCurrent? || m.rom >= |files| then s
    else
      var flags := s.flags[m.rom := m.on];
      Store(flags, Saved(files, flags))
  }

  function Steps(files: seq<Name>, s: Store, ms: seq<Mark>): (s': Store)
    requires |s.flags| == |files|
    ensures |s'.flags| == |files|
  {
    if ms == [] then s else Step(files, Steps(files, s, ms[..|ms| - 1]), ms[|ms| - 1])
  }

  /** A run is its steps one after another, told from the front. */
  lemma {:induction false} StepsFromFront(files: seq<Name>, s: Store, m: Mark, ms: seq<Mark>)
    requires |s.flags| == |files|
    ensures Steps(files, s, [m] + ms) == Steps(files, Step(files, s, m), ms)
    decreases |ms|
  {
    var all := [m] + ms;
    if ms == [] {
      assert all[..0] == [] && all[0] == m;
    } else {
      assert all[..|all| - 1] == [m] + ms[..|ms| - 1] && all[|all| - 1] == ms[|ms| - 1];
      StepsFromFront(files, s, m, ms[..|ms| - 1]);
    }
  }

  /** From loading on, and through any run of marking and unmarking whose writes succeed, the file
      denotes the favourites in memory. */
  lemma {:induction false} RunDenotes(files: seq<Name>, file: seq<s8>, ms: seq<Mark>)
    requires Distinct(files) && AllPlain(files)
    ensures var s := Steps(files, Store(Marked(files, Lines(file)), file), ms);
            Denotes(s.file, files, s.flags)
    decreases |ms|
  {
    if ms != [] {
      RunDenotes(files, file, ms[..|ms| - 1]);
      var s := Steps(files, Store(Marked(files, Lines(file)), file), ms[..|ms| - 1]);
      var m := ms[|ms| - 1];
      if m.Mark? && m.rom < |files| { SaveThenLoad(files, s.flags[m.rom := m.on]); }
    }
  }
}
