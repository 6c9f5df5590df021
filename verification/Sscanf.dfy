/** The formats sscanf knows: minutes, seconds and frames, and the two TRACK lines of CHD metadata. */
module Sscanf {
  import opened Basics
  import opened NumberParsing

  // ---------------------------------------------------------------- %d prints

  function PrintNat(n: nat): (s: string)
    ensures s != []
  {
    (if n < 10 then "" else PrintNat(n / 10)) + [('0' as int + n % 10) as char]
  }

  function PrintInt(x: int): string {
    if x < 0 then "-" + PrintNat(-x) else PrintNat(x)
  }

  lemma {:induction false} PrintNatMeans(n: nat)
    ensures Value(PrintNat(n), 10) == n && AllDigits(PrintNat(n), 10)
  {
    var s := PrintNat(n);
    assert Digit(s[|s| - 1]) == n % 10;
    if n >= 10 {
      PrintNatMeans(n / 10);
      assert s[..|s| - 1] == PrintNat(n / 10);
    } else {
      assert s[..|s| - 1] == "";
    }
  }

  lemma {:induction false} FirstDigit(n: nat)
    ensures '0' <= PrintNat(n)[0] <= '9'
  {
    if n >= 10 { FirstDigit(n / 10); }
  }

  /** A string that begins with an optional minus sign and a digit. */
  lemma FindIs(s: string, neg: bool, n: nat)
    requires var k := if neg then 1 else 0; k < n <= |s| && '0' <= s[k] <= '9' && DigitsEnd(s, k, 10) == n
    requires neg ==> s[0] == '-'
    ensures Find(s, 10) == Parts(neg, if neg then 1 else 0, n, 10)
  {
    hide DigitsEnd;
    assert SpacesEnd(s, 0) == 0;
  }

  /** strtol inverts %d, whatever follows that is no digit. */
  lemma StrtolInvertsPrint(x: int, rest: string)
    requires LONG_MIN <= x <= LONG_MAX && Digit(At(rest, 0)) >= 10
    ensures Meaning(PrintInt(x) + rest, 10) == (x, |PrintInt(x)|)
  {
    hide Value, PrintNat, DigitsEnd, Digit, Find;
    var abs := if x < 0 then -x else x;
    var k, digits := if x < 0 then 1 else 0, PrintNat(abs);
    var s, n := PrintInt(x) + rest, |PrintInt(x)|;
    PrintNatMeans(abs);
    FirstDigit(abs);
    assert s[k..n] == digits;
    assert At(s, n) == At(rest, 0);
    DigitsEndAt(s, k, n, 10);
    FindIs(s, x < 0, n);
  }

  // ---------------------------------------------------------------- %d:%d:%d

  /** The fields assigned, and their number. */
  datatype Msf = Msf(count: nat, m: Option<int>, s: Option<int>, f: Option<int>)

  predicate IsDecimal(c: char) { '0' <= c <= '9' }

  function BlanksEnd(str: string, i: nat): (e: nat)
    requires i <= |str|
    ensures i <= e <= |str|
    decreases |str| - i
  {
    if At(str, i) == ' ' || At(str, i) == '\t' then BlanksEnd(str, i + 1) else i
  }

  /** A number is read only where a digit stands; then its digits are passed over. */
  function Field(str: string, p: nat): (f: (Option<int>, nat))
    requires p <= |str|
    ensures p <= f.1 <= |str|
  {
    if IsDecimal(At(str, p)) then (Some(Meaning(str[p..], 10).0), DigitsEnd(str, p, 10)) else (None, p)
  }

  function Assigned(f: Option<int>): nat { if f.Some? then 1 else 0 }

  function MsfOf(str: string): Msf {
    var (m, p) := Field(str, BlanksEnd(str, 0));
    if At(str, p) != ':' then Msf(Assigned(m), m, None, None)
    else
      var (s, q) := Field(str, p + 1);
      if At(str, q) != ':' then Msf(Assigned(m) + Assigned(s), m, s, None)
      else
        var f := Field(str, q + 1).0;
        Msf(Assigned(m) + Assigned(s) + Assigned(f), m, s, f)
  }

  method ScanField(str: string, start: nat) returns (f: Option<int>, p: nat)
    requires start <= |str|
    ensures (f, p) == Field(str, start)
  {
    p := start;
    f := None;
    if IsDecimal(At(str, p)) {
      var v, _ := Strtol(str[p..], 10);
      f := Some(v);
      while IsDecimal(At(str, p))
        invariant start <= p <= |str| && DigitsEnd(str, start, 10) == DigitsEnd(str, p, 10)
        decreases |str| - p
      {
        p := p + 1;
      }
    }
  }

  method ScanMsf(str: string) returns (r: Msf)
    ensures r == MsfOf(str)
  {
    hide Field, Meaning;
    var p := 0;
    while At(str, p) == ' ' || At(str, p) == '\t'
      invariant p <= |str| && BlanksEnd(str, 0) == BlanksEnd(str, p)
      decreases |str| - p
    {
      p := p + 1;
    }
    var m, s, f: Option<int> := None, None, None;
    var count := 0;
    m, p := ScanField(str, p);
    if m.Some? { count := count + 1; }
    if At(str, p) == ':' {
      s, p := ScanField(str, p + 1);
      if s.Some? { count := count + 1; }
      if At(str, p) == ':' {
        f, p := ScanField(str, p + 1);
        if f.Some? { count := count + 1; }
      }
    }
    return Msf(count, m, s, f);
  }

  /** A printed number in the middle of a string is read back. */
  lemma FieldOfPrint(str: string, p: nat, n: nat)
    requires p + |PrintNat(n)| <= |str| && str[p..p + |PrintNat(n)|] == PrintNat(n) && n <= LONG_MAX
    requires Digit(At(str, p + |PrintNat(n)|)) >= 10
    ensures Field(str, p) == (Some(n as int), p + |PrintNat(n)|)
  {
    hide Value, PrintNat, DigitsEnd, Digit, Meaning;
    var d := PrintNat(n);
    var e := p + |d|;
    PrintNatMeans(n);
    FirstDigit(n);
    assert str[p] == str[p..e][0] == d[0];
    DigitsEndAt(str, p, e, 10);
    assert str[p..] == d + str[e..];
    assert At(str[e..], 0) == At(str, e);
    StrtolInvertsPrint(n, str[e..]);
  }

  /** A field as it is printed, nothing when it is missing. */
  function Show(o: Option<nat>): string { if o.Some? then PrintNat(o.value) else "" }

  predicate Small(o: Option<nat>) { o.Some? ==> o.value <= 2147483647 }

  predicate NoDigit(s: string) { s == "" || !(48 <= s[0] as int <= 57) }

  function AsInt(o: Option<nat>): Option<int> { if o.Some? then Some(o.value as int) else None }

  function OneIf(b: bool): nat { if b then 1 else 0 }

  predicate Blanks(sp: string) { forall k :: 0 <= k < |sp| ==> sp[k] as int in {9, 32} }

  /** A field, printed or missing, between what stands before it and what follows. */
  lemma FieldShown(a: string, o: Option<nat>, rest: string)
    requires Small(o) && NoDigit(rest)
    ensures Field(a + (Show(o) + rest), |a|) == (AsInt(o), |a| + |Show(o)|)
  {
    hide PrintNat, Field, Digit;
    var str, p := a + (Show(o) + rest), |a| + |Show(o)|;
    assert str == a + Show(o) + rest;
    Shift(a + Show(o), rest, 0);
    NoDigitAt(rest);
    if o.Some? {
      MiddleIs(a, Show(o), rest);
      FieldOfPrint(str, |a|, o.value);
    } else {
      NoField(str, p);
    }
  }

  lemma NoField(str: string, p: nat)
    requires p <= |str| && !IsDecimal(At(str, p))
    ensures Field(str, p) == (None, p)
  {
  }

  lemma NoDigitAt(s: string)
    requires NoDigit(s)
    ensures Digit(At(s, 0)) >= 10 && !IsDecimal(At(s, 0))
  {
  }

  lemma ShownStart(o: Option<nat>, rest: string)
    requires rest == "" || rest[0] as int !in {9, 32}
    ensures At(Show(o) + rest, 0) as int !in {9, 32}
  {
    if o.Some? { FirstDigit(o.value); }
  }

  lemma {:induction false} BlanksEndAt(str: string, i: nat, e: nat)
    requires i <= e <= |str| && At(str, e) as int !in {9, 32} && forall k :: i <= k < e ==> str[k] as int in {9, 32}
    ensures BlanksEnd(str, i) == e
    decreases e - i
  {
    if i < e { BlanksEndAt(str, i + 1, e); }
  }

  lemma BlanksThen(sp: string, t: string)
    requires Blanks(sp) && At(t, 0) as int !in {9, 32}
    ensures BlanksEnd(sp + t, 0) == |sp|
  {
    Shift(sp, t, 0);
    BlanksEndAt(sp + t, 0, |sp|);
  }

  /** sscanf on up to three fields, each printed or missing, behind blanks: every field that is there is
      assigned and counted, also behind one that is missing. */
  lemma MsfReads(sp: string, m: Option<nat>, s: Option<nat>, f: Option<nat>, rest: string)
    requires Blanks(sp) && Small(m) && Small(s) && Small(f) && NoDigit(rest)
    ensures MsfOf(sp + (Show(m) + (":" + (Show(s) + (":" + (Show(f) + rest))))))
            == Msf(OneIf(m.Some?) + OneIf(s.Some?) + OneIf(f.Some?), AsInt(m), AsInt(s), AsInt(f))
  {
    hide PrintNat, Show, Field, Digit, MsfOf, BlanksEnd, NoDigit;
    var t2 := ":" + (Show(f) + rest);
    var t1 := ":" + (Show(s) + t2);
    var str := sp + (Show(m) + t1);
    Colon(Show(s) + t2);
    Colon(Show(f) + rest);
    ShownStart(m, t1);
    BlanksThen(sp, Show(m) + t1);
    FieldShown(sp, m, t1);
    var a, b := sp + Show(m), sp + Show(m) + ":" + Show(s);
    Joined(sp, Show(m), t1);
    Joined(a, ":", Show(s) + t2);
    Joined(a + ":", Show(s), t2);
    Joined(b, ":", Show(f) + rest);
    Shift(a, t1, 0);
    Shift(b, t2, 0);
    FieldShown(a + ":", s, t2);
    FieldShown(b + ":", f, rest);
    ThreeFields(str, |sp|, |a|, |b|, AsInt(m), AsInt(s), AsInt(f));
  }

  /** Two fields, or one, and something else. */
  lemma MsfReadsTwo(sp: string, m: Option<nat>, s: Option<nat>, rest: string)
    requires Blanks(sp) && Small(m) && Small(s) && NoDigit(rest) && (rest == "" || rest[0] != ':')
    ensures MsfOf(sp + (Show(m) + (":" + (Show(s) + rest)))) == Msf(OneIf(m.Some?) + OneIf(s.Some?), AsInt(m), AsInt(s), None)
  {
    hide PrintNat, Show, Field, Digit, BlanksEnd, NoDigit;
    var t1 := ":" + (Show(s) + rest);
    var a := sp + Show(m);
    Colon(Show(s) + rest);
    ShownStart(m, t1);
    BlanksThen(sp, Show(m) + t1);
    FieldShown(sp, m, t1);
    Joined(sp, Show(m), t1);
    Joined(a, ":", Show(s) + rest);
    Joined(a + ":", Show(s), rest);
    Shift(a, t1, 0);
    Shift(a + ":" + Show(s), rest, 0);
    FieldShown(a + ":", s, rest);
  }

  lemma MsfReadsOne(sp: string, m: Option<nat>, rest: string)
    requires Blanks(sp) && Small(m) && NoDigit(rest) && (rest == "" || rest[0] !in {':', ' ', '\t'})
    ensures MsfOf(sp + (Show(m) + rest)) == Msf(OneIf(m.Some?), AsInt(m), None, None)
  {
    hide PrintNat, Show, Field, Digit, BlanksEnd, NoDigit;
    ShownStart(m, rest);
    BlanksThen(sp, Show(m) + rest);
    FieldShown(sp, m, rest);
    Joined(sp, Show(m), rest);
    Shift(sp + Show(m), rest, 0);
  }

  lemma Colon(s: string)
    ensures NoDigit(":" + s) && At(":" + s, 0) == (":" + s)[0] == ':'
  {
  }

  lemma Joined(a: string, b: string, c: string)
    ensures a + (b + c) == a + b + c
  {
  }

  lemma ThreeFields(str: string, o: nat, p: nat, q: nat, m: Option<int>, s: Option<int>, f: Option<int>)
    requires BlanksEnd(str, 0) == o <= p < q < |str| && At(str, p) == At(str, q) == ':'
    requires Field(str, o) == (m, p) && Field(str, p + 1) == (s, q) && Field(str, q + 1).0 == f
    ensures MsfOf(str) == Msf(OneIf(m.Some?) + OneIf(s.Some?) + OneIf(f.Some?), m, s, f)
  {
    hide Field, BlanksEnd;
  }

  /** So sscanf inverts the printer of "%d:%d:%d" on non-negative fields. */
  lemma MsfRoundTrip(m: nat, s: nat, f: nat)
    requires m <= LONG_MAX && s <= LONG_MAX && f <= LONG_MAX
    ensures MsfOf(PrintInt(m) + ":" + PrintInt(s) + ":" + PrintInt(f)) == Msf(3, Some(m as int), Some(s as int), Some(f as int))
  {
    hide PrintNat, MsfOf;
    MsfReads("", Some(m), Some(s), Some(f), "");
    var a, b, c := PrintNat(m), PrintNat(s), PrintNat(f);
    assert "" + (a + (":" + (b + (":" + (c + ""))))) == a + ":" + b + ":" + c;
  }

  lemma NoDigits()
    ensures Digit(':') == 36 && Digit('\0') == 36 && Digit(' ') == 36
  {
  }
}
