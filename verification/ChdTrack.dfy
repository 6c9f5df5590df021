/** The TRACK lines of CHD metadata: sscanf looks for each key anywhere in the line. */
module ChdTrack {
  import opened Basics
  import opened NumberParsing
  import opened Sscanf

  // ---------------------------------------------------------------- strstr

  predicate HitAt(str: string, key: string, p: nat) {
    p + |key| <= |str| && str[p..p + |key|] == key
  }

  /** strstr: the first occurrence, from position p on. */
  function FirstHit(str: string, key: string, p: nat): (h: Option<nat>)
    requires p <= |str|
    ensures h.None? ==> forall q :: p <= q <= |str| ==> !HitAt(str, key, q)
    ensures h.Some? ==> p <= h.value && HitAt(str, key, h.value) && forall q :: p <= q < h.value ==> !HitAt(str, key, q)
    decreases |str| - p
  {
    if HitAt(str, key, p) then Some(p)
    else if p == |str| then None
    else FirstHit(str, key, p + 1)
  }

  /** The field behind a hit, up to a space or the end. */
  function WordOf(s: string): (w: string)
    ensures w <= s && (forall k :: 0 <= k < |w| ==> w[k] != ' ') && (|w| < |s| ==> s[|w|] == ' ')
  {
    if s == "" || s[0] == ' ' then "" else [s[0]] + WordOf(s[1..])
  }

  /** What follows the first occurrence of a key. */
  function Behind(str: string, key: string): Option<string> {
    var h := FirstHit(str, key, 0);
    if h.None? then None else Some(str[h.value + |key|..])
  }

  function StringField(str: string, key: string): Option<string> {
    var b := Behind(str, key);
    if b.None? then None else Some(WordOf(b.value))
  }

  function IntField(str: string, key: string): Option<int> {
    var b := Behind(str, key);
    if b.None? then None else Some(Meaning(b.value, 10).0)
  }

  datatype ShortTrack = ShortTrack(
    count: nat, track: Option<int>, kind: Option<string>, subtype: Option<string>, frames: Option<int>)

  datatype LongTrack = LongTrack(
    short: ShortTrack, count: nat, pregap: Option<int>, pgtype: Option<string>, pgsub: Option<string>, postgap: Option<int>)

  function Got<T>(f: Option<T>): nat { if f.Some? then 1 else 0 }

  function ShortTrackOf(str: string): ShortTrack {
    var track, kind := IntField(str, "TRACK:"), StringField(str, "TYPE:");
    var subtype, frames := StringField(str, "SUBTYPE:"), IntField(str, "FRAMES:");
    ShortTrack(Got(track) + Got(kind) + Got(subtype) + Got(frames), track, kind, subtype, frames)
  }

  function LongTrackOf(str: string): LongTrack {
    var short := ShortTrackOf(str);
    var pregap, pgtype := IntField(str, "PREGAP:"), StringField(str, "PGTYPE:");
    var pgsub, postgap := StringField(str, "PGSUB:"), IntField(str, "POSTGAP:");
    LongTrack(short, short.count + Got(pregap) + Got(pgtype) + Got(pgsub) + Got(postgap), pregap, pgtype, pgsub, postgap)
  }

  /** The fields of a key are those of its first occurrence, and there are none without one. */
  lemma FieldsAre(str: string, key: string, p: nat)
    requires HitAt(str, key, p) && forall q :: 0 <= q < p ==> !HitAt(str, key, q)
    ensures IntField(str, key) == Some(Meaning(str[p + |key|..], 10).0)
    ensures StringField(str, key).Some?
    ensures var w, rest := StringField(str, key).value, str[p + |key|..];
            w <= rest && ' ' !in w && (|w| < |rest| ==> rest[|w|] == ' ')
  {
    hide WordOf;
    assert p + |key| <= |str|;
    assert FirstHit(str, key, 0) == Some(p);
  }

  ghost predicate Occurs(str: string, key: string) {
    exists p: nat :: HitAt(str, key, p)
  }

  lemma FoundIffOccurs(str: string, key: string)
    ensures Behind(str, key).Some? <==> Occurs(str, key)
  {
    assert forall p: nat :: HitAt(str, key, p) ==> p <= |str|;
    hide HitAt;
  }

  /** What is returned counts the keys that occur, in whatever order and wherever. */
  lemma CountsKeys(str: string)
    ensures ShortTrackOf(str).count == Ones([Occurs(str, "TRACK:"), Occurs(str, "TYPE:"), Occurs(str, "SUBTYPE:"), Occurs(str, "FRAMES:")])
    ensures LongTrackOf(str).count == ShortTrackOf(str).count
            + Ones([Occurs(str, "PREGAP:"), Occurs(str, "PGTYPE:"), Occurs(str, "PGSUB:"), Occurs(str, "POSTGAP:")])
  {
    hide Occurs, Behind, Ones;
    FourCounted(str, "TRACK:", "TYPE:", "SUBTYPE:", "FRAMES:");
    FourCounted(str, "PREGAP:", "PGTYPE:", "PGSUB:", "POSTGAP:");
  }

  lemma FourCounted(str: string, a: string, b: string, c: string, d: string)
    ensures Ones([Occurs(str, a), Occurs(str, b), Occurs(str, c), Occurs(str, d)])
         == OneIf(Behind(str, a).Some?) + OneIf(Behind(str, b).Some?) + OneIf(Behind(str, c).Some?) + OneIf(Behind(str, d).Some?)
  {
    FoundIffOccurs(str, a);
    FoundIffOccurs(str, b);
    FoundIffOccurs(str, c);
    FoundIffOccurs(str, d);
    FourOnes(Occurs(str, a), Occurs(str, b), Occurs(str, c), Occurs(str, d));
    hide Occurs, Behind, Ones;
  }

  /** How many of them hold. */
  function Ones(b: seq<bool>): nat { multiset(b)[true] }

  lemma FourOnes(a: bool, b: bool, c: bool, d: bool)
    ensures Ones([a, b, c, d]) == OneIf(a) + OneIf(b) + OneIf(c) + OneIf(d)
  {
  }

  // ---------------------------------------------------------------- the loops

  method ScanString(str: string, key: string) returns (f: Option<string>)
    requires '\0' !in str
    ensures f == StringField(str, key)
  {
    var h := FirstHit(str, key, 0);
    if h.None? { return None; }
    var d := CopyWord(str, h.value + |key|);
    return Some(d);
  }

  method CopyWord(str: string, start: nat) returns (d: string)
    requires start <= |str| && '\0' !in str
    ensures d == WordOf(str[start..])
  {
    hide WordOf;
    var p := start;
    d := "";
    while At(str, p) != '\0' && At(str, p) != ' '
      invariant start <= p <= |str| && WordOf(str[start..]) == d + WordOf(str[p..])
      decreases |str| - p
    {
      WordStep(str, p);
      Appended(d, str[p], WordOf(str[p + 1..]));
      d := d + [At(str, p)];
      p := p + 1;
    }
    WordStep(str, p);
  }

  lemma Appended(d: string, x: char, rest: string)
    ensures d + ([x] + rest) == d + [x] + rest
  {
  }

  lemma WordStep(str: string, p: nat)
    requires p <= |str| && '\0' !in str
    ensures At(str, p) == '\0' <==> p == |str|
    ensures WordOf(str[p..]) ==
            if p == |str| || str[p] == ' ' then "" else [str[p]] + WordOf(str[p + 1..])
  {
    if p < |str| {
      assert str[p] in str;
      assert str[p..][1..] == str[p + 1..];
    }
  }

  method ScanInt(str: string, key: string) returns (f: Option<int>)
    ensures f == IntField(str, key)
  {
    var h := FirstHit(str, key, 0);
    if h.None? { return None; }
    var v, _ := Strtol(str[h.value + |key|..], 10);
    return Some(v);
  }

  method ScanShortTrack(str: string) returns (t: ShortTrack)
    requires '\0' !in str
    ensures t == ShortTrackOf(str)
  {
    hide IntField, StringField;
    var count := 0;
    var track := ScanInt(str, "TRACK:");
    if track.Some? { count := count + 1; }
    var kind := ScanString(str, "TYPE:");
    if kind.Some? { count := count + 1; }
    var subtype := ScanString(str, "SUBTYPE:");
    if subtype.Some? { count := count + 1; }
    var frames := ScanInt(str, "FRAMES:");
    if frames.Some? { count := count + 1; }
    return ShortTrack(count, track, kind, subtype, frames);
  }

  method ScanLongTrack(str: string) returns (t: LongTrack)
    requires '\0' !in str
    ensures t == LongTrackOf(str)
  {
    hide IntField, StringField;
    var short := ScanShortTrack(str);
    var count := short.count;
    var pregap := ScanInt(str, "PREGAP:");
    if pregap.Some? { count := count + 1; }
    var pgtype := ScanString(str, "PGTYPE:");
    if pgtype.Some? { count := count + 1; }
    var pgsub := ScanString(str, "PGSUB:");
    if pgsub.Some? { count := count + 1; }
    var postgap := ScanInt(str, "POSTGAP:");
    if postgap.Some? { count := count + 1; }
    return LongTrack(short, count, pregap, pgtype, pgsub, postgap);
  }

  // ---------------------------------------------------------------- lines of labelled fields

  datatype Item = Item(tag: string, field: string)

  /** "tag field", space, and so on. */
  function Line(items: seq<Item>): string {
    if items == [] then ""
    else if |items| == 1 then items[0].tag + items[0].field
    else items[0].tag + items[0].field + " " + Line(items[1..])
  }

  /** Ends in its only colon and has no space. */
  predicate IsKey(k: string) {
    k != "" && k[|k| - 1] == ':' && (forall i :: 0 <= i < |k| - 1 ==> k[i] != ':') && ' ' !in k
  }

  /** No space, no colon, and no NUL in the middle of the line. */
  predicate IsField(f: string) {
    ' ' !in f && ':' !in f && '\0' !in f
  }

  predicate WellFormed(items: seq<Item>) {
    forall i :: 0 <= i < |items| ==> IsKey(items[i].tag) && IsField(items[i].field)
  }

  predicate EndsWith(s: string, k: string) {
    |k| <= |s| && s[|s| - |k|..] == k
  }

  /** Field i and what follows it. */
  function From(items: seq<Item>, i: nat): string
    requires i < |items|
  {
    items[i].field + if i == |items| - 1 then "" else " " + Line(items[i + 1..])
  }

  lemma HitChar(s: string, key: string, p: nat, k: nat)
    requires HitAt(s, key, p) && k < |key|
    ensures s[p + k] == key[k]
  {
    assert s[p..p + |key|][k] == s[p + k];
  }

  lemma CharOf(tag: string, field: string, rest: string, e: nat)
    requires e < |tag + field + rest|
    ensures (tag + field + rest)[e] ==
            if e < |tag| then tag[e] else if e < |tag| + |field| then field[e - |tag|] else rest[e - |tag| - |field|]
  {
  }

  /** No key ends inside a field, and none reaches over the space behind it. */
  lemma NoHitBehindTag(tag: string, field: string, rest: string, key: string, p: nat)
    requires IsField(field) && IsKey(key) && (rest == "" || rest[0] == ' ')
    requires p <= |tag| + |field| && |tag| < p + |key|
    ensures !HitAt(tag + field + rest, key, p)
  {
    var s, b := tag + field + rest, |tag| + |field|;
    if HitAt(s, key, p) {
      var k := if p + |key| - 1 < b then |key| - 1 else b - p;
      CharOf(tag, field, rest, p + k);
      hide HitAt;
      HitChar(s, key, p, k);
    }
  }

  /** In "tag field rest" a key occurs before the rest exactly when the tag ends with it, and then
      right there. */
  lemma HitInFront(tag: string, field: string, rest: string, key: string, p: nat)
    requires IsKey(tag) && IsField(field) && IsKey(key) && (rest == "" || rest[0] == ' ')
    requires p <= |tag| + |field| && HitAt(tag + field + rest, key, p)
    ensures EndsWith(tag, key) && p == |tag| - |key|
  {
    var s := tag + field + rest;
    if p + |key| > |tag| {
      NoHitBehindTag(tag, field, rest, key, p);
    } else {
      HitChar(s, key, p, |key| - 1);
      assert s[p..p + |key|] == tag[p..p + |key|];
    }
  }

  lemma HitShifted(a: string, t: string, key: string, p: nat)
    ensures HitAt(a + t, key, |a| + p) <==> HitAt(t, key, p)
  {
    if |a| + p + |key| <= |a + t| {
      assert (a + t)[|a| + p..|a| + p + |key|] == t[p..p + |key|];
    }
  }

  /** The only first occurrence is where a hit stands with none before it. */
  lemma FirstHitIs(str: string, key: string, h: nat)
    requires h <= |str| && HitAt(str, key, h) && forall q :: 0 <= q < h ==> !HitAt(str, key, q)
    ensures FirstHit(str, key, 0) == Some(h)
  {
    var f := FirstHit(str, key, 0);
    assert f.Some?;
  }

  function Rest(items: seq<Item>): string
    requires items != []
  {
    if |items| == 1 then "" else " " + Line(items[1..])
  }

  lemma LineIs(items: seq<Item>)
    requires items != []
    ensures Line(items) == items[0].tag + items[0].field + Rest(items)
    ensures |items| > 1 ==> Line(items) == (items[0].tag + items[0].field + " ") + Line(items[1..])
    ensures From(items, 0) == items[0].field + Rest(items)
  {
  }

  /** The first occurrence of a key is at the first tag that ends with it. */
  lemma {:induction false} FirstTag(items: seq<Item>, key: string, i: nat)
    requires WellFormed(items) && IsKey(key) && i < |items| && EndsWith(items[i].tag, key)
    requires forall j :: 0 <= j < i ==> !EndsWith(items[j].tag, key)
    ensures Behind(Line(items), key) == Some(From(items, i))
    decreases |items|
  {
    hide Line, From, Behind;
    LineIs(items);
    if i == 0 {
      BehindHere(items[0].tag, items[0].field, Rest(items), key);
    } else {
      var tail := items[1..];
      FirstTag(tail, key, i - 1);
      assert From(tail, i - 1) == From(items, i) by { FromTail(items, i); }
      BehindLater(items[0].tag, items[0].field, Line(tail), key);
    }
  }

  lemma FromTail(items: seq<Item>, i: nat)
    requires 0 < i < |items|
    ensures From(items[1..], i - 1) == From(items, i)
  {
    assert items[1..][i..] == items[i + 1..];
  }

  lemma BehindHere(tag: string, field: string, rest: string, key: string)
    requires IsKey(tag) && IsField(field) && IsKey(key) && (rest == "" || rest[0] == ' ') && EndsWith(tag, key)
    ensures Behind(tag + field + rest, key) == Some(field + rest)
  {
    var s, h := tag + field + rest, |tag| - |key|;
    assert s[h..h + |key|] == tag[h..];
    assert s == tag + (field + rest);
    hide IsKey, IsField, EndsWith;
    forall q | 0 <= q < h ensures !HitAt(s, key, q) {
      if HitAt(s, key, q) { HitInFront(tag, field, rest, key, q); }
    }
    FirstHitIs(s, key, h);
  }

  lemma BehindLater(tag: string, field: string, t: string, key: string)
    requires IsKey(tag) && IsField(field) && IsKey(key) && !EndsWith(tag, key) && Behind(t, key).Some?
    ensures Behind((tag + field + " ") + t, key) == Behind(t, key)
  {
    hide IsKey, IsField, EndsWith, HitAt;
    var a := tag + field + " ";
    var s, g := a + t, FirstHit(t, key, 0).value;
    HitInside(t, key, g);
    assert s == tag + field + (" " + t);
    assert s[|a| + g + |key|..] == t[g + |key|..];
    HitShifted(a, t, key, g);
    forall q | 0 <= q < |a| + g ensures !HitAt(s, key, q) {
      if q < |a| {
        if HitAt(s, key, q) { HitInFront(tag, field, " " + t, key, q); }
      } else {
        HitShifted(a, t, key, q - |a|);
      }
    }
    HitInside(s, key, |a| + g);
    FirstHitIs(s, key, |a| + g);
  }

  lemma HitInside(s: string, key: string, p: nat)
    requires HitAt(s, key, p)
    ensures p + |key| <= |s|
  {
  }

  // ---------------------------------------------------------------- the two formats

  /** What the printer makes of a TRACK line's values. */
  function ShortItems(track: int, kind: string, subtype: string, frames: int): seq<Item> {
    [Item("TRACK:", PrintInt(track)), Item("TYPE:", kind), Item("SUBTYPE:", subtype), Item("FRAMES:", PrintInt(frames))]
  }

  function LongItems(pregap: int, pgtype: string, pgsub: string, postgap: int): seq<Item> {
    [Item("PREGAP:", PrintInt(pregap)), Item("PGTYPE:", pgtype), Item("PGSUB:", pgsub), Item("POSTGAP:", PrintInt(postgap))]
  }

  predicate IsInt(x: int) { LONG_MIN <= x <= LONG_MAX }

  lemma {:induction false} PrintedIsField(x: int)
    ensures IsField(PrintInt(x))
  {
    var n := if x < 0 then -x else x;
    DecimalDigits(n);
  }

  lemma {:induction false} DecimalDigits(n: nat)
    ensures forall i :: 0 <= i < |PrintNat(n)| ==> '0' <= PrintNat(n)[i] <= '9'
  {
    if n >= 10 { DecimalDigits(n / 10); }
  }

  lemma {:induction false} WholeWord(f: string, rest: string)
    requires ' ' !in f && (rest == "" || rest[0] == ' ')
    ensures WordOf(f + rest) == f
  {
    if f == "" {
      assert f + rest == rest;
    } else {
      assert f[0] in f;
      assert (f + rest)[1..] == f[1..] + rest;
      WholeWord(f[1..], rest);
    }
  }

  /** The string field under the first tag that ends with the key is read back. */
  lemma ReadsString(items: seq<Item>, key: string, i: nat)
    requires WellFormed(items) && IsKey(key) && i < |items| && EndsWith(items[i].tag, key)
    requires forall j :: 0 <= j < i ==> !EndsWith(items[j].tag, key)
    ensures StringField(Line(items), key) == Some(items[i].field)
  {
    FirstTag(items, key, i);
    WholeWord(items[i].field, if i == |items| - 1 then "" else " " + Line(items[i + 1..]));
  }

  /** So is a number. */
  lemma ReadsInt(items: seq<Item>, key: string, i: nat, x: int)
    requires WellFormed(items) && IsKey(key) && i < |items| && EndsWith(items[i].tag, key)
    requires forall j :: 0 <= j < i ==> !EndsWith(items[j].tag, key)
    requires IsInt(x) && items[i].field == PrintInt(x)
    ensures IntField(Line(items), key) == Some(x)
  {
    FirstTag(items, key, i);
    NoDigits();
    StrtolInvertsPrint(x, if i == |items| - 1 then "" else " " + Line(items[i + 1..]));
  }

  /** Strings that differ at some distance from the end. */
  lemma Differ(s: string, k: string, d: nat)
    requires 0 < d <= |k| && (|s| < |k| || s[|s| - d] != k[|k| - d])
    ensures !EndsWith(s, k)
  {
    if |k| <= |s| { assert s[|s| - d] == s[|s| - |k|..][|k| - d]; }
  }

  lemma Keys()
    ensures IsKey("TRACK:") && IsKey("TYPE:") && IsKey("SUBTYPE:") && IsKey("FRAMES:")
    ensures IsKey("PREGAP:") && IsKey("PGTYPE:") && IsKey("PGSUB:") && IsKey("POSTGAP:")
    ensures forall k :: EndsWith(k, k)
  {
  }

  /** The first four tags end with none of the keys they must not. */
  lemma ShortTags()
    ensures !EndsWith("TRACK:", "TYPE:")
    ensures !EndsWith("TRACK:", "SUBTYPE:") && !EndsWith("TYPE:", "SUBTYPE:")
    ensures !EndsWith("TRACK:", "FRAMES:") && !EndsWith("TYPE:", "FRAMES:") && !EndsWith("SUBTYPE:", "FRAMES:")
  {
    hide EndsWith;
    Differ("TRACK:", "TYPE:", 2);
    Differ("TRACK:", "SUBTYPE:", 2);
    Differ("TYPE:", "SUBTYPE:", 1);
    Differ("TRACK:", "FRAMES:", 2);
    Differ("TYPE:", "FRAMES:", 2);
    Differ("SUBTYPE:", "FRAMES:", 2);
  }

  lemma LongTags(s: string)
    requires s in {"TRACK:", "TYPE:", "SUBTYPE:", "FRAMES:"}
    ensures !EndsWith(s, "PREGAP:") && !EndsWith(s, "PGTYPE:") && !EndsWith(s, "PGSUB:") && !EndsWith(s, "POSTGAP:")
  {
    hide EndsWith;
    Differ(s, "PREGAP:", 2);
    Differ(s, "PGTYPE:", 6);
    Differ(s, "PGSUB:", 2);
    Differ(s, "POSTGAP:", 2);
  }

  lemma LaterTags()
    ensures !EndsWith("PREGAP:", "PGTYPE:")
    ensures !EndsWith("PREGAP:", "PGSUB:") && !EndsWith("PGTYPE:", "PGSUB:")
    ensures !EndsWith("PREGAP:", "POSTGAP:") && !EndsWith("PGTYPE:", "POSTGAP:") && !EndsWith("PGSUB:", "POSTGAP:")
  {
    hide EndsWith;
    Differ("PREGAP:", "PGTYPE:", 2);
    Differ("PREGAP:", "PGSUB:", 2);
    Differ("PGTYPE:", "PGSUB:", 2);
    Differ("PREGAP:", "POSTGAP:", 1);
    Differ("PGTYPE:", "POSTGAP:", 1);
    Differ("PGSUB:", "POSTGAP:", 1);
  }

  /** sscanf inverts the printer of the four-field format, alone or with more fields behind. */
  lemma ShortRoundTrip(track: int, kind: string, subtype: string, frames: int, more: seq<Item>)
    requires IsInt(track) && IsInt(frames) && IsField(kind) && IsField(subtype) && WellFormed(more)
    ensures ShortTrackOf(Line(ShortItems(track, kind, subtype, frames) + more)) ==
            ShortTrack(4, Some(track), Some(kind), Some(subtype), Some(frames))
  {
    hide EndsWith, IsField, IsKey, Line, IntField, StringField, PrintInt;
    var items := ShortItems(track, kind, subtype, frames) + more;
    PrintedIsField(track);
    PrintedIsField(frames);
    Keys();
    ShortTags();
    assert WellFormed(items);
    ReadsInt(items, "TRACK:", 0, track);
    ReadsString(items, "TYPE:", 1);
    ReadsString(items, "SUBTYPE:", 2);
    ReadsInt(items, "FRAMES:", 3, frames);
  }

  /** And that of the eight-field format. */
  lemma LongRoundTrip(
    track: int, kind: string, subtype: string, frames: int, pregap: int, pgtype: string, pgsub: string, postgap: int)
    requires IsInt(track) && IsInt(frames) && IsField(kind) && IsField(subtype)
    requires IsInt(pregap) && IsInt(postgap) && IsField(pgtype) && IsField(pgsub)
    ensures LongTrackOf(Line(ShortItems(track, kind, subtype, frames) + LongItems(pregap, pgtype, pgsub, postgap))) ==
            LongTrack(ShortTrack(4, Some(track), Some(kind), Some(subtype), Some(frames)),
                      8, Some(pregap), Some(pgtype), Some(pgsub), Some(postgap))
  {
    hide EndsWith, IsField, IsKey, Line, IntField, StringField, PrintInt, ShortTrackOf;
    var more := LongItems(pregap, pgtype, pgsub, postgap);
    var items := ShortItems(track, kind, subtype, frames) + more;
    PrintedIsField(track);
    PrintedIsField(frames);
    PrintedIsField(pregap);
    PrintedIsField(postgap);
    Keys();
    assert WellFormed(more) && WellFormed(items);
    ShortRoundTrip(track, kind, subtype, frames, more);
    LaterTags();
    forall j | 0 <= j < 4 ensures items[j].tag in {"TRACK:", "TYPE:", "SUBTYPE:", "FRAMES:"} { }
    forall j | 0 <= j < 4
      ensures !EndsWith(items[j].tag, "PREGAP:") && !EndsWith(items[j].tag, "PGTYPE:")
      ensures !EndsWith(items[j].tag, "PGSUB:") && !EndsWith(items[j].tag, "POSTGAP:")
    {
      LongTags(items[j].tag);
    }
    ReadsInt(items, "PREGAP:", 4, pregap);
    ReadsString(items, "PGTYPE:", 5);
    ReadsString(items, "PGSUB:", 6);
    ReadsInt(items, "POSTGAP:", 7, postgap);
  }
}
