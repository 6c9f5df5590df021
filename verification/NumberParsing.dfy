/** strtol (section 7.22.1.4 of ISO/IEC 9899:2011) on C strings, here sequences of characters without
    the terminating NUL. */
module NumberParsing {
  const LONG_MAX: nat := 2147483647
  const LONG_MIN: int := -2147483648

  /** The character at a position; the NUL right behind the string. */
  function At(s: string, i: nat): char {
    if i < |s| then s[i] else '\0'
  }

  predicate IsSpace(c: char) {
    c == ' ' || c == '\t' || c == '\n' || c == '\r' || c == '\U{000B}' || c == '\U{000C}'
  }

  /** The value of a digit or letter, 36 for any other character. */
  function Digit(c: char): (d: nat)
    ensures d <= 36
  {
    if '0' <= c <= '9' then (c - '0') as nat
    else if 'A' <= c <= 'Z' then (c - 'A') as nat + 10
    else if 'a' <= c <= 'z' then (c - 'a') as nat + 10
    else 36
  }

  /** The first position from i on that holds no white space. */
  function SpacesEnd(s: string, i: nat): (e: nat)
    requires i <= |s|
    ensures i <= e <= |s| && (forall k :: i <= k < e ==> IsSpace(s[k])) && !IsSpace(At(s, e))
    decreases |s| - i
  {
    if IsSpace(At(s, i)) then SpacesEnd(s, i + 1) else i
  }

  /** Where the run of digits of the base that starts at position i ends. */
  function DigitsEnd(s: string, i: nat, base: nat): (e: nat)
    requires i <= |s| && base <= 36
    ensures i <= e <= |s| && AllDigits(s[i..e], base) && Digit(At(s, e)) >= base
    decreases |s| - i
  {
    if Digit(At(s, i)) < base then DigitsEnd(s, i + 1, base) else i
  }

  /** The mathematical value of a digit string, most significant digit first. */
  function Value(digits: string, base: nat): nat {
    if digits == [] then 0
    else Value(digits[..|digits| - 1], base) * base + Digit(digits[|digits| - 1])
  }

  predicate AllDigits(s: string, base: nat) {
    forall k :: 0 <= k < |s| ==> Digit(s[k]) < base
  }

  /** The parts strtol finds: whether there is a minus sign, where the digits begin and end, and the
      base they are in. */
  datatype Parts = Parts(neg: bool, begin: nat, end: nat, base: nat)

  function HasPrefix(s: string, i: nat, base: nat): bool {
    (base == 0 || base == 16) && At(s, i) == '0' && (At(s, i + 1) == 'x' || At(s, i + 1) == 'X')
  }

  function Find(s: string, base: nat): (p: Parts)
    requires base <= 36
    ensures p.begin <= p.end <= |s|
  {
    var sign := SpacesEnd(s, 0);
    var first := if At(s, sign) == '-' || At(s, sign) == '+' then sign + 1 else sign;
    var begin := if HasPrefix(s, first, base) then first + 2 else first;
    var b := if HasPrefix(s, first, base) then 16 else if base != 0 then base else if At(s, first) == '0' then 8 else 10;
    Parts(At(s, sign) == '-', begin, DigitsEnd(s, begin, b), b)
  }

  /** The signed value, clamped. */
  function Clamp(neg: bool, v: nat): int {
    if neg then (if v > LONG_MAX + 1 then LONG_MIN else -(v as int))
    else (if v > LONG_MAX then LONG_MAX else v)
  }

  /** What strtol promises: the value of the digit run clamped to a long, and the end of the run; the
      start of the string when there are no digits. */
  function Meaning(s: string, base: nat): (int, nat)
    requires base <= 36
  {
    var p := Find(s, base);
    if p.begin == p.end then (0, 0) else (Clamp(p.neg, Value(s[p.begin..p.end], p.base)), p.end)
  }

  // ---------------------------------------------------------------- what is read

  /** Digits are '0' to '9', and from 10 on the letters of either case. */
  lemma DigitIs(c: char, d: nat)
    requires d < 36
    ensures Digit(c) == d <==> c as int == if d < 10 then 48 + d else if c as int < 91 then 55 + d else 87 + d
  {
  }

  function Numeral(d: nat): char
    requires d < 36
  {
    (if d < 10 then 48 + d else 87 + d) as char
  }

  /** A number in any base, with lower-case letters. */
  function Print(n: nat, base: nat): (s: string)
    requires 2 <= base <= 36
    ensures s != []
  {
    (if n < base then "" else (Divided(n, base); Print(n / base, base))) + [Numeral(n % base)]
  }

  /** Printing and reading the value back, in every base. */
  lemma {:induction false} ValueInvertsPrint(n: nat, base: nat)
    requires 2 <= base <= 36
    ensures Value(Print(n, base), base) == n && AllDigits(Print(n, base), base)
  {
    hide Value, Digit, Numeral;
    NumeralIs(n % base);
    if n < base {
      ValueAppended("", Numeral(n), base);
      ValueOfNone(base);
      assert "" + [Numeral(n)] == Print(n, base);
    } else {
      Divided(n, base);
      ValueInvertsPrint(n / base, base);
      ValueAppended(Print(n / base, base), Numeral(n % base), base);
    }
  }

  lemma NumeralIs(d: nat)
    requires d < 36
    ensures Digit(Numeral(d)) == d
  {
  }

  lemma Divided(n: nat, base: nat)
    requires 2 <= base <= n
    ensures n / base * base + n % base == n && n / base < n
  {
  }

  lemma ValueAppended(s: string, c: char, base: nat)
    ensures Value(s + [c], base) == Value(s, base) * base + Digit(c)
  {
    assert (s + [c])[..|s|] == s;
  }

  /** The end of a digit run that something else follows. */
  lemma {:induction false} DigitsEndAt(s: string, i: nat, e: nat, base: nat)
    requires i <= e <= |s| && base <= 36 && AllDigits(s[i..e], base) && Digit(At(s, e)) >= base
    ensures DigitsEnd(s, i, base) == e
    decreases e - i
  {
    if i < e {
      assert s[i] == s[i..e][0];
      assert s[i + 1..e] == s[i..e][1..];
      DigitsEndAt(s, i + 1, e, base);
    }
  }

  lemma {:induction false} SpacesEndAt(s: string, i: nat, e: nat)
    requires i <= e <= |s| && !IsSpace(At(s, e)) && forall k :: i <= k < e ==> IsSpace(s[k])
    ensures SpacesEnd(s, i) == e
    decreases e - i
  {
    if i < e { SpacesEndAt(s, i + 1, e); }
  }

  predicate Blank(sp: string) {
    forall k :: 0 <= k < |sp| ==> sp[k] as int in {9, 10, 11, 12, 13, 32}
  }

  /** How base and prefix settle the base the digits are in. */
  predicate Settles(base: nat, prefix: string, digits: string, rest: string, b: nat) {
    if prefix != "" then prefix in {"0x", "0X"} && base in {0, 16} && b == 16
    else
      && digits != "" && (base in {0, 16} && digits == "0" ==> At(rest, 0) !in {'x', 'X'})
      && b == if base != 0 then base else if digits[0] == '0' then 8 else 10
  }

  /** A value with its sign, cut to a long. */
  function Cut(negative: bool, v: int): int {
    if negative then (if v > 2147483648 then -2147483648 else -v) else if v > 2147483647 then 2147483647 else v
  }

  /** strtol on white space, a sign, the prefix of base 16, digits, and anything that does not go on with
      a digit: the digits' value with the sign, cut to a long; a prefix without digits is nothing. */
  lemma StrtolReads(sp: string, sign: string, prefix: string, digits: string, rest: string, base: nat, b: nat)
    requires Blank(sp) && sign in {"", "+", "-"} && (base == 0 || 2 <= base <= 36)
    requires Settles(base, prefix, digits, rest, b) && AllDigits(digits, b) && Digit(At(rest, 0)) >= b
    ensures Meaning(sp + (sign + (prefix + (digits + rest))), base)
            == if digits == "" then (0, 0)
               else (Cut(sign == "-", Value(digits, b)), |sp| + |sign| + |prefix| + |digits|)
  {
    hide Value, DigitsEnd, SpacesEnd, Digit, Settles, AllDigits, Find, Blank, Clamp, At;
    var u := prefix + (digits + rest);
    var s := sp + (sign + u);
    var begin := |sp| + |sign| + |prefix|;
    Settled(base, prefix, digits, rest, b);
    FindsParts(sp, sign, prefix, digits, rest, base, b);
    MiddleIs(sp + sign + prefix, digits, rest);
    Regrouped(sp, sign, prefix, digits + rest);
    Regrouped(sp + sign, prefix, digits, rest);
    CutIsClamp(sign == "-", Value(digits, b));
  }

  lemma CutIsClamp(negative: bool, v: nat)
    ensures Clamp(negative, v) == Cut(negative, v)
  {
  }

  lemma Regrouped(a: string, b: string, c: string, d: string)
    ensures a + (b + (c + d)) == a + b + (c + d) == a + b + c + d
  {
  }

  lemma MiddleIs(a: string, digits: string, rest: string)
    ensures (a + digits + rest)[|a|..|a| + |digits|] == digits
  {
  }

  lemma FindsParts(sp: string, sign: string, prefix: string, digits: string, rest: string, base: nat, b: nat)
    requires Blank(sp) && sign in {"", "+", "-"} && (base == 0 || 2 <= base <= 36)
    requires Settles(base, prefix, digits, rest, b) && AllDigits(digits, b) && Digit(At(rest, 0)) >= b
    ensures var n := |sp| + |sign| + |prefix|;
            Find(sp + (sign + (prefix + (digits + rest))), base) == Parts(sign == "-", n, n + |digits|, b)
  {
    hide Value, DigitsEnd, SpacesEnd, Digit, Settles, AllDigits, Find, Blank, At, IsSpace;
    var u := prefix + (digits + rest);
    var s := sp + (sign + u);
    Settled(base, prefix, digits, rest, b);
    Starts(sign, prefix, digits, rest, b);
    Shift(sp, sign + u, 0);
    SpacesThen(sp, sign + u);
    DigitsThen(sp + sign + prefix, digits, rest, b);
    Regrouped(sp, sign, prefix, digits + rest);
    Regrouped(sp + sign, prefix, digits, rest);
    assert s == sp + sign + u == sp + sign + prefix + digits + rest;
    PrefixSame(sp + sign, u, base);
    NoPrefix(prefix, digits, rest, base, b);
    hide HasPrefix;
    FoundAt(s, |sp|, sign, prefix, |digits|, base, b);
  }

  lemma Settled(base: nat, prefix: string, digits: string, rest: string, b: nat)
    requires Settles(base, prefix, digits, rest, b) && base <= 36
    ensures b <= 36 && (prefix in {"0x", "0X"} || (prefix == "" && digits != ""))
    ensures b == if prefix != "" then 16 else if base != 0 then base else if digits[0] == '0' then 8 else 10
  {
  }

  lemma Shift(a: string, t: string, k: nat)
    ensures At(a + t, |a| + k) == At(t, k)
  {
  }

  lemma PrefixSame(a: string, t: string, base: nat)
    ensures HasPrefix(a + t, |a|, base) == HasPrefix(t, 0, base) && At(a + t, |a|) == At(t, 0)
  {
    Shift(a, t, 0);
    Shift(a, t, 1);
  }

  lemma SpacesThen(sp: string, t: string)
    requires Blank(sp) && !IsSpace(At(t, 0))
    ensures SpacesEnd(sp + t, 0) == |sp|
  {
    Shift(sp, t, 0);
    SpacesEndAt(sp + t, 0, |sp|);
  }

  lemma DigitsThen(a: string, digits: string, rest: string, b: nat)
    requires b <= 36 && AllDigits(digits, b) && Digit(At(rest, 0)) >= b
    ensures DigitsEnd(a + digits + rest, |a|, b) == |a| + |digits|
  {
    var s := a + digits + rest;
    Shift(a + digits, rest, 0);
    assert s[|a|..|a| + |digits|] == digits;
    DigitsEndAt(s, |a|, |a| + |digits|, b);
  }

  /** What stands behind white space is none, and no sign follows a sign. */
  lemma Starts(sign: string, prefix: string, digits: string, rest: string, b: nat)
    requires sign in {"", "+", "-"} && (prefix in {"0x", "0X"} || (prefix == "" && digits != "")) && AllDigits(digits, b) && b <= 36
    ensures var u := prefix + (digits + rest);
            && !IsSpace(At(sign + u, 0)) && At(u, 0) !in {'+', '-'}
            && At(sign + u, 0) == if sign == "" then At(u, 0) else sign[0]
  {
    if prefix == "" {
      assert Digit(digits[0]) < b;
      assert (prefix + (digits + rest))[0] == digits[0];
    }
  }

  lemma FoundAt(s: string, p: nat, sign: string, prefix: string, n: nat, base: nat, b: nat)
    requires SpacesEnd(s, 0) == p && sign in {"", "+", "-"} && prefix in {"", "0x", "0X"} && base <= 36 && b <= 36
    requires p + |sign| + |prefix| + n <= |s|
    requires if sign == "" then At(s, p) !in {'+', '-'} else At(s, p) == sign[0]
    requires HasPrefix(s, p + |sign|, base) <==> prefix != ""
    requires b == if prefix != "" then 16 else if base != 0 then base else if At(s, p + |sign|) == '0' then 8 else 10
    requires DigitsEnd(s, p + |sign| + |prefix|, b) == p + |sign| + |prefix| + n
    ensures Find(s, base) == Parts(sign == "-", p + |sign| + |prefix|, p + |sign| + |prefix| + n, b)
  {
    hide DigitsEnd, SpacesEnd;
  }

  lemma NoPrefix(prefix: string, digits: string, rest: string, base: nat, b: nat)
    requires Settles(base, prefix, digits, rest, b) && AllDigits(digits, b) && b <= 36
    ensures var u := prefix + (digits + rest);
            if prefix == "" then !HasPrefix(u, 0, base) && At(u, 0) == digits[0] else HasPrefix(u, 0, base)
  {
    var u := prefix + (digits + rest);
    if prefix == "" && |digits| > 1 {
      assert u[1] == digits[1];
      assert Digit(digits[1]) < b;
    }
  }

  // ---------------------------------------------------------------- the overflow test

  /** A further digit overflows exactly when the cutoff test says so. */
  lemma CutoffIsExact(acc: nat, c: nat, base: nat, max: nat)
    requires 2 <= base && c < base
    ensures acc > max / base || (acc == max / base && c > max % base) <==> acc * base + c > max
  {
    var q, r := max / base, max % base;
    assert max == q * base + r;
    if acc > q {
      assert acc * base >= (q + 1) * base;
    } else if acc < q {
      assert acc * base <= (q - 1) * base;
    }
  }

  // ---------------------------------------------------------------- strtol

  method Strtol(nptr: string, base: nat) returns (r: int, end: nat)
    requires base == 0 || 2 <= base <= 36
    ensures (r, end) == Meaning(nptr, base)
  {
    hide DigitsEnd, SpacesEnd, IsSpace, Value, Digit, Clamp;
    var s := SkipSpaces(nptr);
    var neg := false;
    if At(nptr, s) == '-' {
      neg := true;
      s := s + 1;
    } else if At(nptr, s) == '+' {
      s := s + 1;
    }
    var b := base;
    if (base == 0 || base == 16) && At(nptr, s) == '0' && (At(nptr, s + 1) == 'x' || At(nptr, s + 1) == 'X') {
      s := s + 2;
      b := 16;
    }
    if b == 0 {
      b := if At(nptr, s) == '0' then 8 else 10;
    }
    r, end := Accumulate(nptr, s, neg, b);
  }

  method SkipSpaces(nptr: string) returns (s: nat)
    ensures s == SpacesEnd(nptr, 0)
  {
    s := 0;
    while IsSpace(At(nptr, s))
      invariant s <= |nptr| && SpacesEnd(nptr, 0) == SpacesEnd(nptr, s)
      decreases |nptr| - s
    {
      s := s + 1;
    }
  }

  lemma ValueNext(s: string, begin: nat, i: nat, base: nat)
    requires begin <= i < |s|
    ensures Value(s[begin..i + 1], base) == Value(s[begin..i], base) * base + Digit(s[i])
    ensures base >= 1 ==> Value(s[begin..i + 1], base) >= Value(s[begin..i], base)
  {
    var d := s[begin..i + 1];
    assert d[..|d| - 1] == s[begin..i];
    var v := Value(s[begin..i], base);
    if base >= 1 { assert v * base >= v; }
  }

  /** The digit loop and what follows it. */
  method Accumulate(nptr: string, begin: nat, neg: bool, base: nat) returns (r: int, end: nat)
    requires 2 <= base <= 36 && begin <= |nptr|
    ensures var e := DigitsEnd(nptr, begin, base);
            (r, end) == if begin == e then (0, 0) else (Clamp(neg, Value(nptr[begin..e], base)), e)
  {
    hide Value, Digit;
    var max: nat := if neg then LONG_MAX + 1 else LONG_MAX;
    var cutlim, cutoff := max % base, max / base;
    var acc: nat, any: int, s := 0, 0, begin;
    assert Value(nptr[begin..begin], base) == 0 by { ValueOfNone(base); assert nptr[begin..begin] == []; }
    while Digit(At(nptr, s)) < base
      invariant begin <= s <= |nptr| && DigitsEnd(nptr, begin, base) == DigitsEnd(nptr, s, base)
      invariant any == 0 <==> s == begin
      invariant if any < 0 then Value(nptr[begin..s], base) > max else acc == Value(nptr[begin..s], base) <= max
      decreases |nptr| - s
    {
      var c := Digit(At(nptr, s));
      ValueNext(nptr, begin, s, base);
      CutoffIsExact(acc, c, base, max);
      if any < 0 || acc > cutoff || (acc == cutoff && c > cutlim) {
        any := -1;
      } else {
        any := 1;
        acc := acc * base;
        acc := acc + c;
      }
      s := s + 1;
    }
    if any < 0 {
      r := if neg then LONG_MIN else LONG_MAX;
    } else {
      r := if neg then -(acc as int) else acc;
    }
    end := if any != 0 then s else 0;
  }

  lemma ValueOfNone(base: nat)
    ensures Value([], base) == 0
  {
  }
}
