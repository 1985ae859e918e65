/** The hand-written number readers of the x86_64 C library. A C string is the sequence of
    its characters up to the terminator. */
module Std {

  const ULONG: int := 0x1_0000_0000_0000_0000
  const LONG_LIMIT: int := 0x8000_0000_0000_0000

  // ---- numerals in base 10 and 16 ---------------------------------------

  /** Digit value of a character, 99 if it is none. */
  function Val(c: char): nat {
    if '0' <= c <= '9' then c as nat - '0' as nat
    else if 'a' <= c <= 'f' then c as nat - 'a' as nat + 10
    else if 'A' <= c <= 'F' then c as nat - 'A' as nat + 10
    else 99
  }

  predicate Digits(s: string, k: nat, e: nat, base: nat)
    requires e <= |s|
  {
    forall i :: k <= i < e ==> Val(s[i]) < base
  }

  /** Positional value of the characters from k to e. */
  function Value(s: string, k: nat, e: nat, base: nat): nat
    requires k <= e <= |s|
    decreases e
  {
    if k == e then 0 else base * Value(s, k, e - 1, base) + Val(s[e - 1])
  }

  /** Where the run of digits that starts at k ends. */
  function End(s: string, k: nat, base: nat): (e: nat)
    requires k <= |s|
    ensures k <= e <= |s| && Digits(s, k, e, base) && (e < |s| ==> Val(s[e]) >= base)
    decreases |s| - k
  {
    if k == |s| || Val(s[k]) >= base then k else End(s, k + 1, base)
  }

  lemma {:induction false} EndIs(s: string, k: nat, e: nat, base: nat)
    requires k <= e <= |s| && Digits(s, k, e, base) && (e < |s| ==> Val(s[e]) >= base)
    ensures End(s, k, base) == e
    decreases e - k
  {
    if k == e {
    } else {
      EndIs(s, k + 1, e, base);
    }
  }

  function Digit(d: nat, upper: bool): char
    requires d < 16
  {
    if d < 10 then '0' + d as char else if upper then 'A' + (d - 10) as char else 'a' + (d - 10) as char
  }

  /** The digits, in either case, and nothing else. */
  lemma DigitValues(d: nat, c: char)
    requires d < 10
    ensures Val("0123456789"[d]) == d
    ensures d < 6 ==> Val("abcdef"[d]) == Val("ABCDEF"[d]) == 10 + d
    ensures c !in "0123456789" && c !in "abcdef" && c !in "ABCDEF" ==> Val(c) >= 16
  {
    if '0' <= c <= '9' {
      assert c == "0123456789"[c as nat - '0' as nat];
    } else if 'a' <= c <= 'f' {
      assert c == "abcdef"[c as nat - 'a' as nat];
    } else if 'A' <= c <= 'F' {
      assert c == "ABCDEF"[c as nat - 'A' as nat];
    }
  }

  /** The usual way to print a number. */
  function Numeral(n: nat, base: nat, upper: bool): string
    requires base == 10 || base == 16
  {
    if n < base then [Digit(n, upper)] else Numeral(n / base, base, upper) + [Digit(n % base, upper)]
  }

  predicate Plain(c: char) { c != 'x' && c != 'X' && !Space(c) && c != '+' && c != '-' }

  lemma DigitVal(d: nat, upper: bool)
    requires d < 16
    ensures Val(Digit(d, upper)) == d && (Digit(d, upper) == '0' <==> d == 0) && Plain(Digit(d, upper))
  {
  }

  /** s is a way to write n: digits of either case, leading zeros allowed. */
  predicate Spells(s: string, n: nat, base: nat) {
    s != "" && Plain(s[0]) && Digits(s, 0, |s|, base) && Value(s, 0, |s|, base) == n
  }

  /** Value looks only at the characters in the range. */
  lemma {:induction false} ValueOf(s: string, k: nat, t: string, n: nat, base: nat)
    requires k + n <= |s| && n <= |t| && forall i :: 0 <= i < n ==> s[k + i] == t[i]
    ensures Value(s, k, k + n, base) == Value(t, 0, n, base)
    decreases n
  {
    if n == 0 {
    } else {
      ValueOf(s, k, t, n - 1, base);
      assert s[k + (n - 1)] == t[n - 1];
    }
  }

  lemma AppendSpells(t: string, v: nat, c: char, base: nat)
    requires Spells(t, v, base) && Val(c) < base
    ensures Spells(t + [c], base * v + Val(c), base)
  {
    var s := t + [c];
    assert s[0] == t[0];
    hide Val, Plain;
    ValueOf(s, 0, t, |t|, base);
    assert Value(s, 0, |t| + 1, base) == base * Value(s, 0, |t|, base) + Val(s[|t|]);
  }

  /** A leading zero does not count. */
  lemma {:induction false} LeadingZero(s: string, k: nat, e: nat, base: nat)
    requires k < e <= |s| && Val(s[k]) == 0
    ensures Value(s, k, e, base) == Value(s, k + 1, e, base)
    decreases e
  {
    if e == k + 1 {
      assert Value(s, k, k, base) == 0;
    } else {
      LeadingZero(s, k, e - 1, base);
    }
  }

  lemma DivMod(n: nat, base: nat)
    requires base > 0
    ensures base * (n / base) + n % base == n
  {
  }

  lemma {:induction false} NumeralSpells(n: nat, base: nat, upper: bool)
    requires base == 10 || base == 16
    ensures Spells(Numeral(n, base, upper), n, base)
    decreases n
  {
    if n < base {
      DigitVal(n, upper);
      var s := [Digit(n, upper)];
      assert Value(s, 0, 0, base) == 0 && Value(s, 0, 1, base) == n;
    } else {
      DigitVal(n % base, upper);
      NumeralSpells(n / base, base, upper);
      AppendSpells(Numeral(n / base, base, upper), n / base, Digit(n % base, upper), base);
      DivMod(n, base);
    }
  }

  /** A spelled number inside a longer string, not continued by the next character. */
  lemma SpelledAt(s: string, k: nat, num: string, n: nat, base: nat)
    requires Spells(num, n, base) && k + |num| <= |s| && (forall i :: 0 <= i < |num| ==> s[k + i] == num[i])
    requires k + |num| < |s| ==> Val(s[k + |num|]) >= base
    ensures End(s, k, base) == k + |num| && Value(s, k, k + |num|, base) == n
  {
    assert forall i :: k <= i < k + |num| ==> s[i] == num[i - k];
    EndIs(s, k, k + |num|, base);
    ValueOf(s, k, num, |num|, base);
  }

  // ---- strtoul ----------------------------------------------------------

  /** Characters skipped before the digits: a leading 0, and an x after it. */
  function HexSkip(s: string): (k: nat)
    ensures k <= |s|
  {
    if s == "" || s[0] != '0' then 0
    else if |s| > 1 && (s[1] == 'x' || s[1] == 'X') then 2 else 1
  }

  datatype Ptr = Null | At(s: string)

  const NO_DIGIT: nat := 99

  /** The classification at the top of the loop. */
  method HexDigit(c: char) returns (digit: nat)
    ensures digit == Val(c) && (digit < 16 || digit == NO_DIGIT)
  {
    if '0' <= c <= '9' {
      digit := c as nat - '0' as nat;
    } else if 'a' <= c <= 'f' {
      digit := c as nat - 'a' as nat + 10;
    } else if 'A' <= c <= 'F' {
      digit := c as nat - 'A' as nat + 10;
    } else {
      digit := NO_DIGIT;
    }
  }

  /** The value modulo 2^64 of the longest run of hex digits after the skipped characters,
      and the position of the first character not consumed. */
  method StrToUl(nptr: Ptr, base: int) returns (d: nat, end: nat)
    ensures nptr.Null? || base != 16 ==> d == 0 && end == 0
    ensures nptr.At? && base == 16 ==>
      var k := HexSkip(nptr.s);
      end == End(nptr.s, k, 16) && d == Value(nptr.s, k, end, 16) % ULONG
  {
    d, end := 0, 0;
    if nptr.Null? || base != 16 {
      return;
    }
    var s, i := nptr.s, 0;
    if |s| > 0 && s[0] == '0' {
      i := 1;
      if i < |s| && (s[i] == 'x' || s[i] == 'X') {
        i := 2;
      }
    }
    assert i == HexSkip(s);
    d, end := HexRun(s, i);
  }

  /** The digit loop of strtoul, from position k. */
  method HexRun(s: string, k: nat) returns (d: nat, i: nat)
    requires k <= |s|
    ensures i == End(s, k, 16) && d == Value(s, k, i, 16) % ULONG
  {
    d, i := 0, k;
    while i < |s|
      invariant k <= i <= |s| && Digits(s, k, i, 16) && d == Value(s, k, i, 16) % ULONG
    {
      var digit := HexDigit(s[i]);
      if digit == NO_DIGIT {
        break;
      }
      ShiftIn(Value(s, k, i, 16), digit);
      i := i + 1;
      d := (16 * d) % ULONG;
      d := (d + digit) % ULONG;
    }
    EndIs(s, k, i, 16);
  }

  lemma ShiftIn(v: nat, digit: nat)
    ensures ((16 * (v % ULONG)) % ULONG + digit) % ULONG == (16 * v + digit) % ULONG
  {
    var q, r := v / ULONG, v % ULONG;
    assert 16 * v + digit == (16 * r + digit) + ULONG * (16 * q);
  }

  /** strtoul undoes hex printing, in either case, with or without prefix, and stops where
      the number ends. `NumeralSpells` supplies the printed forms. */
  lemma StrToUlInverts(p: string, num: string, n: nat, tail: string)
    requires p == "" || p == "0x" || p == "0X"
    requires Spells(num, n, 16) && n < ULONG && (tail != "" ==> Val(tail[0]) >= 16)
    requires p == "" && num == "0" && tail != "" ==> tail[0] != 'x' && tail[0] != 'X'
    ensures var s := p + num + tail; var k := HexSkip(s); var e := End(s, k, 16);
      Value(s, k, e, 16) % ULONG == n && e == |p| + |num|
  {
    if p == "" && num[0] == '0' {
      assert p + num + tail == num + tail;
      ZeroSkipped(num, n, tail);
    } else {
      SkipsPrefix(p, num, tail);
      PrefixedInverts(p, num, n, tail);
    }
    Small(n);
  }

  lemma Small(v: nat)
    requires v < ULONG
    ensures v % ULONG == v
  {
  }

  lemma PrefixedInverts(p: string, num: string, n: nat, tail: string)
    requires HexSkip(p + num + tail) == |p|
    requires Spells(num, n, 16) && (tail != "" ==> Val(tail[0]) >= 16)
    ensures var s := p + num + tail; var k := HexSkip(s); var e := End(s, k, 16);
      Value(s, k, e, 16) == n && e == |p| + |num|
  {
    Continues(p, num, tail);
    SpelledAt(p + num + tail, |p|, num, n, 16);
  }

  /** Without a prefix one leading 0 is itself skipped, which does not matter. */
  lemma ZeroSkipped(num: string, n: nat, tail: string)
    requires Spells(num, n, 16) && num[0] == '0' && (tail != "" ==> Val(tail[0]) >= 16)
    requires num == "0" && tail != "" ==> tail[0] != 'x' && tail[0] != 'X'
    ensures var s := num + tail; HexSkip(s) == 1 && End(s, 1, 16) == |num| && Value(s, 1, |num|, 16) == n
  {
    var s, e := num + tail, |num|;
    ZeroThenDigits(num, tail);
    hide Val, Value, End, HexSkip;
    EndIs(s, 1, e, 16);
    ValueOf(s, 0, num, e, 16);
    LeadingZero(s, 0, e, 16);
  }

  lemma ZeroThenDigits(num: string, tail: string)
    requires num != "" && num[0] == '0' && Digits(num, 0, |num|, 16) && (tail != "" ==> Val(tail[0]) >= 16)
    requires num == "0" && tail != "" ==> tail[0] != 'x' && tail[0] != 'X'
    ensures var s, e := num + tail, |num|;
      && HexSkip(s) == 1 && Val(s[0]) == 0 && Digits(s, 1, e, 16) && (e < |s| ==> Val(s[e]) >= 16)
      && forall i :: 0 <= i < e ==> s[i] == num[i]
  {
    var s, e := num + tail, |num|;
    assert |s| > 1 ==> s[1] == if e > 1 then num[1] else tail[0];
    assert e > 1 ==> Val(num[1]) < 16;
  }

  lemma SkipsPrefix(p: string, num: string, tail: string)
    requires (p == "" || p == "0x" || p == "0X") && num != "" && (p == "" ==> num[0] != '0')
    ensures HexSkip(p + num + tail) == |p|
  {
    var s := p + num + tail;
    if p == "" { assert s[0] == num[0]; } else { assert s[0] == p[0] && s[1] == p[1]; }
  }

  lemma Continues(p: string, num: string, tail: string)
    ensures var s := p + num + tail;
      && (forall i :: 0 <= i < |num| ==> s[|p| + i] == num[i])
      && (|p| + |num| < |s| ==> s[|p| + |num|] == tail[0])
  {
  }

  // ---- atol -------------------------------------------------------------

  predicate Space(c: char) { c == ' ' || c == '\t' || c == '\n' }

  /** The first character from k on that is not white space. */
  function Blank(s: string, k: nat): (e: nat)
    requires k <= |s|
    ensures k <= e <= |s|
    decreases |s| - k
  {
    if k == |s| || !Space(s[k]) then k else Blank(s, k + 1)
  }

  function Signed(s: string, k: nat): (e: nat)
    requires k <= |s|
    ensures k <= e <= |s|
  {
    if k < |s| && (s[k] == '+' || s[k] == '-') then k + 1 else k
  }

  /** What atol reads: white space, a sign, digits. */
  function Decimal(s: string): int {
    var b := Blank(s, 0);
    var k := Signed(s, b);
    var v: int := Value(s, k, End(s, k, 10), 10);
    if b < |s| && s[b] == '-' then -v else v
  }

  lemma {:induction false} DigitsReachEnd(s: string, k: nat, e: nat, base: nat)
    requires k <= e <= |s| && Digits(s, k, e, base)
    ensures e <= End(s, k, base)
    decreases e - k
  {
    if k == e {
    } else {
      DigitsReachEnd(s, k + 1, e, base);
    }
  }

  lemma {:induction false} ValueGrows(s: string, k: nat, i: nat, e: nat, base: nat)
    requires k <= i <= e <= |s| && base >= 1
    ensures Value(s, k, i, base) <= Value(s, k, e, base)
    decreases e - i
  {
    if i == e {
    } else {
      ValueGrows(s, k, i, e - 1, base);
      Scales(Value(s, k, e - 1, base), base);
    }
  }

  lemma Scales(v: nat, base: nat)
    requires base >= 1
    ensures base * v >= v
  {
  }

  /** What has been read of a number is no larger than the number. */
  lemma PartFits(s: string, k: nat, i: nat)
    requires k <= i < |s| && Digits(s, k, i + 1, 10)
    ensures 10 * Value(s, k, i, 10) + Val(s[i]) <= Value(s, k, End(s, k, 10), 10)
  {
    DigitsReachEnd(s, k, i + 1, 10);
    ValueGrows(s, k, i + 1, End(s, k, 10), 10);
  }

  /** For a magnitude that fits, no signed multiplication or addition overflows on the way. */
  method AToL(nptr: Ptr) returns (d: int)
    requires nptr.At? ==> -LONG_LIMIT < Decimal(nptr.s) < LONG_LIMIT
    ensures d == if nptr.Null? then 0 else Decimal(nptr.s)
  {
    if nptr.Null? {
      return 0;
    }
    var s, i := nptr.s, 0;
    while i < |s| && Space(s[i])
      invariant 0 <= i <= |s| && Blank(s, i) == Blank(s, 0)
    {
      i := i + 1;
    }
    var neg := false;
    if i < |s| && (s[i] == '+' || s[i] == '-') {
      neg := s[i] == '-';
      i := i + 1;
    }
    d := DecimalRun(s, i);
    d := if neg then -d else d;
  }

  /** The digit loop of atol, from position k. */
  method DecimalRun(s: string, k: nat) returns (d: int)
    requires k <= |s| && Value(s, k, End(s, k, 10), 10) < LONG_LIMIT
    ensures d == Value(s, k, End(s, k, 10), 10)
  {
    var i := k;
    d := 0;
    while i < |s|
      invariant k <= i <= |s| && Digits(s, k, i, 10) && d == Value(s, k, i, 10)
    {
      var c := s[i];
      if c < '0' || c > '9' {
        break;
      }
      PartFits(s, k, i);
      d := 10 * d;
      assert d < LONG_LIMIT;
      d := d + (c as int - '0' as int);
      assert d < LONG_LIMIT;
      i := i + 1;
    }
    EndIs(s, k, i, 10);
  }

  lemma {:induction false} BlankIs(s: string, k: nat, e: nat)
    requires k <= e <= |s| && (forall i :: k <= i < e ==> Space(s[i])) && (e < |s| ==> !Space(s[e]))
    ensures Blank(s, k) == e
    decreases e - k
  {
    if k == e {
    } else {
      BlankIs(s, k + 1, e);
    }
  }

  /** A decimal found where the white space and the sign end. */
  lemma DecimalAt(s: string, b: nat, k: nat, num: string, n: nat)
    requires b <= k <= |s| && Blank(s, 0) == b && Signed(s, b) == k
    requires Spells(num, n, 10) && k + |num| <= |s| && (forall i :: 0 <= i < |num| ==> s[k + i] == num[i])
    requires k + |num| < |s| ==> Val(s[k + |num|]) >= 10
    ensures b < |s| && Decimal(s) == if s[b] == '-' then -(n as int) else n
  {
    SpelledAt(s, k, num, n, 10);
  }

  /** White space and a sign are read as such. */
  lemma SignAt(ws: string, sign: string, rest: string)
    requires (forall c :: c in ws ==> c in " \t\n") && sign in {"", "+", "-"} && rest != "" && Plain(rest[0])
    ensures var s := ws + sign + rest;
      Blank(s, 0) == |ws| && Signed(s, |ws|) == |ws| + |sign| && (s[|ws|] == '-' <==> sign == "-")
  {
    var s, b := ws + sign + rest, |ws|;
    assert s[b] == if sign == "" then rest[0] else sign[0];
    forall i | 0 <= i < b ensures Space(s[i]) { assert s[i] == ws[i] && ws[i] in ws; }
    BlankIs(s, 0, b);
  }

  /** atol undoes signed decimal printing: after any blanks, tabs and line feeds, with either
      sign or none, with leading zeros or without, before any tail. */
  lemma AToLInverts(ws: string, sign: string, num: string, n: nat, tail: string)
    requires (forall c :: c in ws ==> c in " \t\n") && sign in {"", "+", "-"}
    requires Spells(num, n, 10) && (tail != "" ==> tail[0] !in "0123456789")
    ensures Decimal(ws + sign + (num + tail)) == if sign == "-" then -(n as int) else n
  {
    hide Val, Plain, Blank, Signed, Value, Decimal;
    var s := ws + sign + (num + tail);
    assert (num + tail)[0] == num[0];
    SignAt(ws, sign, num + tail);
    assert s == (ws + sign) + num + tail;
    Continues(ws + sign, num, tail);
    if tail != "" { NoDigit(tail[0]); }
    DecimalAt(s, |ws|, |ws| + |sign|, num, n);
  }

  lemma NoDigit(c: char)
    ensures c !in "0123456789" ==> Val(c) >= 10
  {
    if '0' <= c <= '9' { assert c == "0123456789"[c as nat - '0' as nat]; }
  }
}
