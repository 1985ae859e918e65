/** The PS/2 keyboard decoder: a byte-at-a-time state machine that turns set-2 scan codes
    into key events. */
module Keyboard {
  import opened Common

  const BREAK: Byte := 0xF0
  const LSHIFT: Byte := 0x12
  const RSHIFT: Byte := 0x59
  const CTRL: Byte := 0x14
  const NOT_FOUND: nat := 0xFF

  /** The two tables of the driver: scan codes, and key names unshifted then shifted. */
  datatype Tables = Tables(make: seq<Byte>, keys: seq<string>)

  predicate TablesOk(t: Tables) {
    |t.make| == 86 && |t.keys| == 171 && t.make[0] == BREAK
  }

  /** The flags of KeybState. */
  datatype State = State(brk: bool, lshift: bool, rshift: bool, ctrl: bool)

  datatype Key = Key(code: nat, scan: Byte)

  // ---- table search -----------------------------------------------------

  function Find(make: seq<Byte>, code: Byte): (i: nat)
    ensures i <= |make| && (i < |make| ==> make[i] == code) && forall k :: 0 <= k < i ==> make[k] != code
  {
    if make == [] then 0 else if make[0] == code then 0 else 1 + Find(make[1..], code)
  }

  /** The index of the code's only or first entry, or 0xFF. */
  method Decode(make: seq<Byte>, code: Byte) returns (index: nat)
    requires |make| < NOT_FOUND
    ensures index < |make| ==> make[index] == code && forall k :: 0 <= k < index ==> make[k] != code
    ensures index >= |make| ==> index == NOT_FOUND && code !in make
  {
    index := 0;
    while index < |make|
      invariant 0 <= index <= |make| && forall k :: 0 <= k < index ==> make[k] != code
    {
      if make[index] == code {
        return;
      }
      index := index + 1;
    }
    index := NOT_FOUND;
  }

  // ---- one scan code ----------------------------------------------------

  /** What a key's name publishes: its character, or 0 for a named key (and for an empty
      name, whose first byte is the terminator). */
  function CodeOf(name: string): nat { if |name| != 1 then 0 else name[0] as nat }

  /** The table entry used for a code; shifted names lie 85 further on. */
  function Entry(t: Tables, code: Byte, shift: bool): nat {
    Find(t.make, code) + if shift then 85 else 0
  }

  function Scanned(s: State, code: Byte): State {
    if code == BREAK then s.(brk := true)
    else if s.brk then
      var s1 := s.(brk := false);
      if code == LSHIFT then s1.(lshift := !s.lshift)
      else if code == RSHIFT then s1.(rshift := !s.rshift)
      else if code == CTRL then s1.(ctrl := !s.ctrl)
      else s1
    else if code == LSHIFT then s.(lshift := true)
    else if code == RSHIFT then s.(rshift := true)
    else if code == CTRL then s.(ctrl := true)
    else s
  }

  predicate Modifier(code: Byte) { code == LSHIFT || code == RSHIFT || code == CTRL }

  /** The events a code publishes in a state: none or one. */
  function Published(t: Tables, s: State, code: Byte): seq<Key>
    requires TablesOk(t)
  {
    if code == BREAK || s.brk || Modifier(code) || Find(t.make, code) == |t.make| then []
    else
      EntryInTable(t, code, s.lshift || s.rshift);
      [Key(CodeOf(t.keys[Entry(t, code, s.lshift || s.rshift)]), code)]
  }

  /** A code that is found is not entry 0 unless it is the break code, and its index, shifted
      or not, is inside the name table. */
  lemma EntryInTable(t: Tables, code: Byte, shift: bool)
    requires TablesOk(t) && Find(t.make, code) < |t.make| && code != BREAK
    ensures 1 <= Entry(t, code, shift) < 171
  {
  }

  class Keyboard {
    var brk: bool
    var lshift: bool
    var rshift: bool
    var ctrl: bool

    ghost function View(): State reads this { State(brk, lshift, rshift, ctrl) }

    /** `_kernel_onKeybScan`; `out` is what it publishes. */
    method OnScan(t: Tables, code: Byte) returns (out: seq<Key>)
      requires TablesOk(t)
      modifies this
      ensures View() == Scanned(old(View()), code)
      ensures out == Published(t, old(View()), code)
    {
      out := [];
      if code == BREAK {
        brk := true;
        return;
      }
      if brk {
        brk := false;
        if code == LSHIFT {
          lshift := !lshift;
        } else if code == RSHIFT {
          rshift := !rshift;
        } else if code == CTRL {
          ctrl := !ctrl;
        }
        return;
      }
      if code == LSHIFT {
        lshift := true;
      } else if code == RSHIFT {
        rshift := true;
      } else if code == CTRL {
        ctrl := true;
      } else {
        var index := Decode(t.make, code);
        if index == NOT_FOUND {
          return;
        }
        EntryInTable(t, code, lshift || rshift);
        var name := t.keys[index + 85 * (if lshift || rshift then 1 else 0)];
        out := [Key(if |name| > 1 || |name| == 0 then 0 else name[0] as nat, code)];
      }
    }
  }

  // ---- whole streams ----------------------------------------------------

  const START := State(false, false, false, false)

  /** The handler's state after the first n codes of a stream, and what it has published. */
  function After(s: seq<Byte>, n: nat): State
    requires n <= |s|
  {
    if n == 0 then START else Scanned(After(s, n - 1), s[n - 1])
  }

  function Output(t: Tables, s: seq<Byte>, n: nat): seq<Key>
    requires TablesOk(t) && n <= |s|
  {
    if n == 0 then [] else Output(t, s, n - 1) + Published(t, After(s, n - 1), s[n - 1])
  }

  /** The code at i is the second half of a release. */
  predicate Released(s: seq<Byte>, i: nat)
    requires i < |s|
  {
    i > 0 && s[i - 1] == BREAK
  }

  /** The key with code c is down after n codes: its last mention was a press. */
  predicate Held(s: seq<Byte>, n: nat, c: Byte)
    requires n <= |s|
  {
    n > 0 && if s[n - 1] == c then !Released(s, n - 1) else Held(s, n - 1, c)
  }

  /** Every release of c among the first n codes finds it down. */
  predicate Paired(s: seq<Byte>, n: nat, c: Byte)
    requires n <= |s|
  {
    forall i :: 0 <= i < n && s[i] == c && Released(s, i) ==> Held(s, i, c)
  }

  /** The handler's flag for a modifier. */
  predicate Flag(k: State, c: Byte)
    requires Modifier(c)
  {
    if c == LSHIFT then k.lshift else if c == RSHIFT then k.rshift else k.ctrl
  }

  lemma BreakFlag(s: seq<Byte>, n: nat)
    requires n <= |s|
    ensures After(s, n).brk <==> n > 0 && s[n - 1] == BREAK
  {
  }

  /** One code: a press sets the flag, a release flips it, nothing else touches it. */
  lemma FlagStep(s: seq<Byte>, n: nat, c: Byte)
    requires n < |s| && Modifier(c)
    ensures Flag(After(s, n + 1), c) ==
      if s[n] != c then Flag(After(s, n), c) else if Released(s, n) then !Flag(After(s, n), c) else true
  {
    BreakFlag(s, n);
  }

  lemma {:induction false} FlagFollows(s: seq<Byte>, n: nat, c: Byte)
    requires n <= |s| && Modifier(c) && Paired(s, n, c)
    ensures Flag(After(s, n), c) == Held(s, n, c)
    decreases n
  {
    if n == 0 {
    } else {
      FlagFollows(s, n - 1, c);
      FlagStep(s, n - 1, c);
    }
  }

  /** A modifier's flag agrees with the physical key at every moment of a stream exactly
      when every release in it finds the key down: an unpaired release sets the flag. */
  lemma FlagExactly(s: seq<Byte>, c: Byte)
    requires Modifier(c)
    ensures (forall n :: 0 <= n <= |s| ==> Flag(After(s, n), c) == Held(s, n, c)) <==> Paired(s, |s|, c)
  {
    if Paired(s, |s|, c) {
      forall n | 0 <= n <= |s| ensures Flag(After(s, n), c) == Held(s, n, c) { FlagFollows(s, n, c); }
    } else {
      var i :| 0 <= i < |s| && s[i] == c && Released(s, i) && !Held(s, i, c);
      FlagStep(s, i, c);
      assert !Held(s, i + 1, c);
      assert Flag(After(s, i), c) != Held(s, i, c) || Flag(After(s, i + 1), c) != Held(s, i + 1, c);
    }
  }

  /** The key with this code: its first place in the scan code table. */
  ghost predicate KeyAt(t: Tables, code: Byte, k: nat) {
    k < |t.make| && t.make[k] == code && forall j :: 0 <= j < k ==> t.make[j] != code
  }

  /** The published code stands for the name: the character of a one-character name, else 0. */
  ghost predicate Stands(code: nat, name: string) {
    (exists c :: name == [c] && code == c as nat) || (|name| != 1 && code == 0)
  }

  /** What code i of a stream should publish, said of the stream and the tables alone: the
      press of a known key that is no modifier, by its name in the first half of the name
      table or, with a shift held, by the one 85 further on. */
  ghost predicate Expects(t: Tables, s: seq<Byte>, i: nat, out: seq<Key>)
    requires TablesOk(t) && i < |s|
  {
    if s[i] == BREAK || Released(s, i) || Modifier(s[i]) || s[i] !in t.make then out == []
    else
      && |out| == 1 && out[0].scan == s[i]
      && exists k :: KeyAt(t, s[i], k)
           && Stands(out[0].code, t.keys[if Held(s, i, LSHIFT) || Held(s, i, RSHIFT) then k + 85 else k])
  }

  /** The events of the first n codes are what each code should publish, in order. */
  ghost predicate ExpectsAll(t: Tables, s: seq<Byte>, n: nat, out: seq<Key>)
    requires TablesOk(t) && n <= |s|
  {
    if n == 0 then out == []
    else exists m :: 0 <= m <= |out| && ExpectsAll(t, s, n - 1, out[..m]) && Expects(t, s, n - 1, out[m..])
  }

  /** On every stream whose shift releases are paired the published events are the expected
      ones, in order, and none of them is for the break code. */
  lemma {:induction false} StreamDecoded(t: Tables, s: seq<Byte>, n: nat)
    requires TablesOk(t) && n <= |s| && Paired(s, n, LSHIFT) && Paired(s, n, RSHIFT)
    ensures ExpectsAll(t, s, n, Output(t, s, n))
    ensures forall k :: k in Output(t, s, n) ==> k.scan != BREAK
    decreases n
  {
    hide Published, Expects, Scanned, Held;
    if n == 0 {
    } else {
      StreamDecoded(t, s, n - 1);
      CodeDecoded(t, s, n - 1);
      var out, m := Output(t, s, n), |Output(t, s, n - 1)|;
      assert out[..m] == Output(t, s, n - 1) && out[m..] == Published(t, After(s, n - 1), s[n - 1]);
    }
  }

  lemma CodeDecoded(t: Tables, s: seq<Byte>, i: nat)
    requires TablesOk(t) && i < |s| && Paired(s, i, LSHIFT) && Paired(s, i, RSHIFT)
    ensures Expects(t, s, i, Published(t, After(s, i), s[i]))
    ensures forall k :: k in Published(t, After(s, i), s[i]) ==> k.scan != BREAK
  {
    BreakFlag(s, i);
    FlagFollows(s, i, LSHIFT);
    FlagFollows(s, i, RSHIFT);
    assert s[i] in t.make <==> Find(t.make, s[i]) < |t.make|;
    var out := Published(t, After(s, i), s[i]);
    if out != [] {
      assert KeyAt(t, s[i], Find(t.make, s[i]));
      CodeStands(t.keys[Entry(t, s[i], Held(s, i, LSHIFT) || Held(s, i, RSHIFT))]);
    }
  }

  lemma CodeStands(name: string)
    ensures Stands(CodeOf(name), name)
  {
    if |name| == 1 { assert name == [name[0]]; }
  }

  // ---- the driver's tables ----------------------------------------------

  const LETTER_CODES: seq<Byte> := [
    0x1C, 0x32, 0x21, 0x23, 0x24, 0x2B, 0x34, 0x33, 0x43, 0x3B, 0x42, 0x4B, 0x3A,
    0x31, 0x44, 0x4D, 0x15, 0x2D, 0x1B, 0x2C, 0x3C, 0x2A, 0x1D, 0x22, 0x35, 0x1A
  ]
  const DIGIT_CODES: seq<Byte> := [0x45, 0x16, 0x1E, 0x26, 0x25, 0x2E, 0x36, 0x3D, 0x3E, 0x46]
  const SIGN_CODES: seq<Byte> := [0x0E, 0x4E, 0x55, 0x5D]
  const NAMED_CODES: seq<Byte> := [
    0x66, 0x29, 0x0D, 0x58, 0x12, 0x14, 0x11, 0x59, 0x5A, 0x76, 0x05, 0x06, 0x04, 0x0C,
    0x03, 0x0B, 0x83, 0x0A, 0x01, 0x09, 0x78, 0x07, 0x7E, 0x54, 0x5B, 0x77, 0x7C, 0x71,
    0x70, 0x69, 0x72, 0x7A, 0x6B, 0x73, 0x74, 0x6C, 0x75, 0x7D, 0x7B, 0x79
  ]
  const STOP_CODES: seq<Byte> := [0x4C, 0x52, 0x41, 0x49, 0x4A]

  const MAKE: seq<Byte> := [BREAK] + LETTER_CODES + DIGIT_CODES + SIGN_CODES + NAMED_CODES + STOP_CODES

  const LETTERS: seq<string> := [
    "a", "b", "c", "d", "e", "f", "g", "h", "i", "j", "k", "l", "m",
    "n", "o", "p", "q", "r", "s", "t", "u", "v", "w", "x", "y", "z"
  ]
  const CAPITALS: seq<string> := [
    "A", "B", "C", "D", "E", "F", "G", "H", "I", "J", "K", "L", "M",
    "N", "O", "P", "Q", "R", "S", "T", "U", "V", "W", "X", "Y", "Z"
  ]
  const DIGITS: seq<string> := ["0", "1", "2", "3", "4", "5", "6", "7", "8", "9"]
  const SIGNS: seq<string> := ["`", "-", "=", "\\"]
  const SHIFTED_SIGNS: seq<string> := ["~", "_", "+", "|"]
  const NAMED: seq<string> := [
    "\U{0008}", " ", "\t", "CAPS", "LSHFT", "LCTRL", "LALT", "RSHFT", "\n", "ESC", "F1", "F2", "F3", "F4",
    "F5", "F6", "F7", "F8", "F9", "F10", "F11", "F12", "SCROLL", "[", "]", "NUM", "KP*", "KP.",
    "KP0", "KP1", "KP2", "KP3", "KP4", "KP5", "KP6", "KP7", "KP8", "KP9", "KP-", "KP+"
  ]
  const STOPS: seq<string> := [";", "'", ",", ".", "/"]
  const SHIFTED_STOPS: seq<string> := [":", "\"", "<", ">", "?"]

  /** The names unshifted, then shifted; digits and named keys are the same in both. */
  const KEYS: seq<string> :=
    ["brk"] + LETTERS + DIGITS + SIGNS + NAMED + STOPS + CAPITALS + DIGITS + SHIFTED_SIGNS + NAMED + SHIFTED_STOPS

  lemma DriverTables()
    ensures TablesOk(DRIVER) && DRIVER.make == MAKE && DRIVER.keys == KEYS && |MAKE| == 86 && |KEYS| == 171
  {
  }

  const DRIVER := Tables(MAKE, KEYS)

  /** Entry i of five parts in a row. */
  function Part<T>(letters: seq<T>, digits: seq<T>, signs: seq<T>, named: seq<T>, stops: seq<T>, i: nat): T
    requires |letters| == 26 && |digits| == 10 && |signs| == 4 && |named| == 40 && |stops| == 5 && i < 85
  {
    if i < 26 then letters[i] else if i < 36 then digits[i - 26] else if i < 40 then signs[i - 36]
    else if i < 80 then named[i - 40] else stops[i - 80]
  }

  lemma Joined<T>(first: T, a: seq<T>, b: seq<T>, c: seq<T>, d: seq<T>, e: seq<T>, i: nat)
    requires |a| == 26 && |b| == 10 && |c| == 4 && |d| == 40 && |e| == 5 && i < 85
    ensures ([first] + a + b + c + d + e)[i + 1] == Part(a, b, c, d, e, i)
  {
  }

  lemma JoinedTwice<T>(first: T, a: seq<T>, b: seq<T>, c: seq<T>, d: seq<T>, e: seq<T>,
                       f: seq<T>, g: seq<T>, h: seq<T>, k: seq<T>, l: seq<T>, i: nat)
    requires |a| == 26 && |b| == 10 && |c| == 4 && |d| == 40 && |e| == 5 && i < 85
    requires |f| == 26 && |g| == 10 && |h| == 4 && |k| == 40 && |l| == 5
    ensures var all := [first] + a + b + c + d + e + f + g + h + k + l;
      all[i + 1] == Part(a, b, c, d, e, i) && all[i + 86] == Part(f, g, h, k, l, i)
  {
    Joined(first, a, b, c, d, e, i);
    var half := [first] + a + b + c + d + e;
    assert half + f + g + h + k + l == half + (f + g + h + k + l);
    assert (f + g + h + k + l)[i] == Part(f, g, h, k, l, i);
  }

  /** What shift makes of the names: letters become capitals, nine keys change their sign and
      all others, digits and brackets among them, keep their name. */
  lemma ShiftedNames(i: nat)
    requires 1 <= i <= 85
    ensures i <= 26 ==> KEYS[i] == ['a' + (i - 1) as char] && KEYS[i + 85] == ['A' + (i - 1) as char]
    ensures 27 <= i <= 36 ==> KEYS[i] == ['0' + (i - 27) as char]
    ensures 37 <= i <= 40 ==> KEYS[i] == ["`-=\\"[i - 37]] && KEYS[i + 85] == ["~_+|"[i - 37]]
    ensures 81 <= i ==> KEYS[i] == [";',./"[i - 81]] && KEYS[i + 85] == [":\"<>?"[i - 81]]
    ensures 27 <= i <= 36 || 41 <= i <= 80 ==> KEYS[i + 85] == KEYS[i]
  {
    JoinedTwice("brk", LETTERS, DIGITS, SIGNS, NAMED, STOPS, CAPITALS, DIGITS, SHIFTED_SIGNS, NAMED, SHIFTED_STOPS, i - 1);
    if i <= 26 {
      LetterNames(i - 1);
    } else if i <= 36 {
      DigitNames(i - 27);
    } else if 37 <= i <= 40 {
      SignNames(i - 37);
    } else if 81 <= i {
      StopNames(i - 81);
    }
  }

  lemma LetterNames(k: nat)
    requires k < 26
    ensures LETTERS[k] == ['a' + k as char] && CAPITALS[k] == ['A' + k as char]
  {
  }

  lemma DigitNames(k: nat)
    requires k < 10
    ensures DIGITS[k] == ['0' + k as char]
  {
  }

  lemma SignNames(k: nat)
    requires k < 4
    ensures SIGNS[k] == ["`-=\\"[k]] && SHIFTED_SIGNS[k] == ["~_+|"[k]]
  {
  }

  lemma StopNames(k: nat)
    requires k < 5
    ensures STOPS[k] == [";',./"[k]] && SHIFTED_STOPS[k] == [":\"<>?"[k]]
  {
  }

  /** Pressing the i-th letter publishes it, a capital if a shift is held. */
  lemma LetterPublished(s: State, i: nat)
    requires 1 <= i <= 26 && !s.brk
    ensures Published(DRIVER, s, MAKE[i])
         == [Key((if s.lshift || s.rshift then 'A' else 'a') as nat + (i - 1), MAKE[i])]
  {
    hide *;
    DriverTables();
    LetterFound(i);
    ShiftedNames(i);
    PressPublishes(DRIVER, s, MAKE[i], i, KEYS[i], KEYS[i + 85]);
  }

  /** The press of key i, by its two names. */
  lemma PressPublishes(t: Tables, s: State, code: Byte, i: nat, name: string, shifted: string)
    requires TablesOk(t) && !s.brk && code != BREAK && !Modifier(code)
    requires Find(t.make, code) == i < 86 && t.keys[i] == name && t.keys[i + 85] == shifted
    requires |name| == |shifted| == 1
    ensures Published(t, s, code) == [Key((if s.lshift || s.rshift then shifted[0] else name[0]) as nat, code)]
  {
  }

  lemma LetterFound(i: nat)
    requires 1 <= i <= 26
    ensures MAKE[i] == LETTER_CODES[i - 1] && Find(MAKE, MAKE[i]) == i && MAKE[i] != BREAK && !Modifier(MAKE[i])
  {
    Joined(BREAK, LETTER_CODES, DIGIT_CODES, SIGN_CODES, NAMED_CODES, STOP_CODES, i - 1);
    LetterCodesApart(i - 1, i - 1);
    var k := Find(MAKE, MAKE[i]);
    if 0 < k < i {
      Joined(BREAK, LETTER_CODES, DIGIT_CODES, SIGN_CODES, NAMED_CODES, STOP_CODES, k - 1);
      LetterCodesApart(k - 1, i - 1);
    }
  }

  lemma LetterCodesApart(i: nat, j: nat)
    requires i <= j < 26
    ensures i != j ==> LETTER_CODES[i] != LETTER_CODES[j]
    ensures LETTER_CODES[i] != BREAK && !Modifier(LETTER_CODES[i])
  {
  }
}
