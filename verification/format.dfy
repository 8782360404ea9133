// vsprintf and its number conversions (klibc/stdio/vsprintf.c).
module Formatting {
  import opened Machine

  type Char = c: int | 0 <= c < 256

  const BUF_LEN := 512
  const HEX: seq<Char> := [48, 49, 50, 51, 52, 53, 54, 55, 56, 57, 65, 66, 67, 68, 69, 70]

  // ------------------------------------------------------------- numbers

  // Digit d as the source writes it: 0 to 9, then A to F.
  function Digit(d: int): (c: Char)
    requires 0 <= d < 16
  {
    if d < 10 then 48 + d else 55 + d
  }

  // What digit a character stands for.
  function DigitValue(c: Char): int { if c < 58 then c - 48 else c - 55 }

  function Rest(n: nat, base: nat): (q: nat)
    requires 2 <= base
    ensures base * q <= n < base * (q + 1) && (q < n || n == 0) && (n >= base ==> q > 0)
  {
    n / base
  }

  function Last(n: nat, base: nat): (d: nat)
    requires 2 <= base
    ensures d < base && base * Rest(n, base) + d == n
  {
    n % base
  }

  // The digits of n, the most significant one first.
  function Digits(n: nat, base: nat): (ds: seq<Char>)
    requires 2 <= base <= 16
    ensures |ds| > 0
    decreases n
  {
    if n < base then [Digit(n)] else Digits(Rest(n, base), base) + [Digit(Last(n, base))]
  }

  // The number a string of digits stands for.
  function Number(ds: seq<Char>, base: nat): int {
    if ds == [] then 0 else base * Number(ds[..|ds| - 1], base) + DigitValue(ds[|ds| - 1])
  }

  function Power(b: nat, k: nat): nat { if k == 0 then 1 else b * Power(b, k - 1) }

  // A digit that occurs in base.
  predicate IsDigit(c: Char, base: nat) {
    (48 <= c < 58 || 65 <= c < 71) && DigitValue(c) < base
  }

  /** What is written reads back as the number it was written for; it is all digits. */
  lemma {:induction false} NumberOfDigits(n: nat, base: nat)
    requires 2 <= base <= 16
    ensures Number(Digits(n, base), base) == n
    ensures forall k :: 0 <= k < |Digits(n, base)| ==> IsDigit(Digits(n, base)[k], base)
    decreases n
  {
    hide Rest, Last;
    if n >= base {
      var q := Rest(n, base);
      var ds := Digits(n, base);
      NumberOfDigits(q, base);
      assert ds == Digits(q, base) + [Digit(Last(n, base))];
      assert ds[..|ds| - 1] == Digits(q, base);
    }
  }

  lemma Monotone(b: nat, x: int, y: int)
    requires x <= y
    ensures b * x <= b * y
  {
  }

  /** There are just as many digits as n needs: no leading zero. */
  lemma {:induction false} DigitCount(n: nat, base: nat)
    requires 2 <= base <= 16
    ensures n < Power(base, |Digits(n, base)|)
    ensures n > 0 ==> Power(base, |Digits(n, base)| - 1) <= n && Digits(n, base)[0] != Digit(0)
    ensures n == 0 ==> Digits(n, base) == [Digit(0)]
    decreases n
  {
    hide Rest, Last;
    if n >= base {
      var q := Rest(n, base);
      var k := |Digits(q, base)|;
      DigitCount(q, base);
      Monotone(base, q + 1, Power(base, k));
      Monotone(base, Power(base, k - 1), q);
    } else {
      assert Power(base, 1) == base * Power(base, 0) == base;
    }
  }

  lemma {:induction false} PowerGrows(b: nat, i: nat, j: nat)
    requires b >= 1 && i <= j
    ensures 1 <= Power(b, i) <= Power(b, j)
    decreases j
  {
    if i < j {
      PowerGrows(b, i, j - 1);
      assert Power(b, j - 1) <= b * Power(b, j - 1);
    } else if i > 0 {
      PowerGrows(b, i - 1, j - 1);
      assert 1 <= b * Power(b, i - 1);
    }
  }

  /** A 32-bit number has at most ten decimal and eight hexadecimal digits. */
  lemma WordDigits(n: nat)
    requires n < WORD_RANGE
    ensures |Digits(n, 10)| <= 10 && |Digits(n, 16)| <= 8
  {
    DigitCount(n, 10);
    DigitCount(n, 16);
    assert Power(10, 10) == 10_000_000_000 && Power(16, 8) == 0x1_0000_0000;
    if |Digits(n, 10)| > 10 {
      PowerGrows(10, 10, |Digits(n, 10)| - 1);
    }
    if |Digits(n, 16)| > 8 {
      PowerGrows(16, 8, |Digits(n, 16)| - 1);
    }
  }

  // ltoa's text for the 32-bit word w, taken as a signed number.
  function SignedText(w: int): seq<Char>
    requires 0 <= w < WORD_RANGE
  {
    if Signed(w) < 0 then [45] + Digits(WORD_RANGE - w, 10) else Digits(w, 10)
  }

  function HexText(w: nat): seq<Char> { [48, 120] + Digits(w, 16) }

  // Reading them back.
  function SignedNumber(s: seq<Char>): int {
    if s != [] && s[0] == 45 then -Number(s[1..], 10) else Number(s, 10)
  }

  lemma SignedRoundTrip(w: int)
    requires 0 <= w < WORD_RANGE
    ensures SignedNumber(SignedText(w)) == Signed(w)
    ensures |SignedText(w)| <= 11
  {
    var raw := if Signed(w) < 0 then WORD_RANGE - w else w;
    NumberOfDigits(raw, 10);
    WordDigits(raw);
    if Signed(w) < 0 {
      assert SignedText(w)[1..] == Digits(raw, 10);
    } else {
      assert IsDigit(Digits(w, 10)[0], 10);
    }
  }

  lemma HexRoundTrip(w: int)
    requires 0 <= w < WORD_RANGE
    ensures Number(HexText(w)[2..], 16) == w && HexText(w)[..2] == [48, 120] && |HexText(w)| <= 10
  {
    NumberOfDigits(w, 16);
    WordDigits(w);
    assert HexText(w)[2..] == Digits(w, 16);
  }

  // ---------------------------------------------------------- in the array

  // c is b with s written over it from at on.
  ghost predicate Written(b: seq<Char>, c: seq<Char>, at: nat, s: seq<Char>) {
    && at + |s| <= |b| == |c|
    && forall k :: 0 <= k < |c| ==> c[k] == if at <= k < at + |s| then s[k - at] else b[k]
  }

  lemma WrittenOn(b: seq<Char>, c: seq<Char>, d: seq<Char>, at: nat, s: seq<Char>, t: seq<Char>)
    requires Written(b, c, at, s) && Written(c, d, at + |s|, t)
    ensures Written(b, d, at, s + t)
  {
  }

  // Writing over something of the same length.
  lemma WrittenOver(b: seq<Char>, c: seq<Char>, d: seq<Char>, at: nat, s: seq<Char>, t: seq<Char>)
    requires Written(b, c, at, s) && Written(c, d, at, t) && |s| == |t|
    ensures Written(b, d, at, t)
  {
  }

  lemma WrittenIs(b: seq<Char>, c: seq<Char>, at: nat, s: seq<Char>)
    requires Written(b, c, at, s)
    ensures c[at..at + |s|] == s && (at == 0 ==> s <= c)
  {
  }

  function Reversed(s: seq<Char>): (r: seq<Char>)
    ensures |r| == |s| && forall i :: 0 <= i < |s| ==> r[i] == s[|s| - 1 - i]
  {
    seq(|s|, i requires 0 <= i < |s| => s[|s| - 1 - i])
  }

  // The digits of n in the order they come out.
  function LowFirst(n: nat, base: nat): (ds: seq<Char>)
    requires 2 <= base <= 16
    ensures |ds| > 0
    decreases n
  {
    [Digit(Last(n, base))] + if Rest(n, base) == 0 then [] else LowFirst(Rest(n, base), base)
  }

  lemma NoRest(n: nat, base: nat)
    requires 2 <= base && n < base
    ensures Rest(n, base) == 0 && Last(n, base) == n
  {
  }

  lemma {:induction false} LowFirstReversed(n: nat, base: nat)
    requires 2 <= base <= 16
    ensures Reversed(LowFirst(n, base)) == Digits(n, base) && |LowFirst(n, base)| == |Digits(n, base)|
    decreases n
  {
    hide Last, Digit;
    var q := Rest(n, base);
    if n >= base {
      LowFirstReversed(q, base);
      assert LowFirst(n, base) == [Digit(Last(n, base))] + LowFirst(q, base);
    } else {
      NoRest(n, base);
    }
  }

  // b with the n characters from at on turned round.
  ghost function Turned(b: seq<Char>, at: nat, n: nat): seq<Char>
    requires at + n <= |b|
  {
    seq(|b|, k requires 0 <= k < |b| => if at <= k < at + n then b[2 * at + n - 1 - k] else b[k])
  }

  lemma TurnedIsReversed(b: seq<Char>, at: nat, n: nat)
    requires at + n <= |b|
    ensures Written(b, Turned(b, at, n), at, Reversed(b[at..at + n]))
    ensures forall k :: 0 <= k < |b| && !(at <= k < at + n) ==> Turned(b, at, n)[k] == b[k]
  {
  }

  lemma TurnedAt(b: seq<Char>, at: nat, n: nat, i: nat)
    requires at + n <= |b| && i < n
    ensures Turned(b, at, n)[at + i] == b[at + (n - (i + 1))]
  {
  }

  // The loop that turns the n characters from at on round.
  method Reverse(buf: array<Char>, at: nat, n: nat)
    requires at + n <= buf.Length
    modifies buf
    ensures Written(old(buf[..]), buf[..], at, Reversed(old(buf[at..at + n])))
  {
    hide Written, Reversed, Turned;
    ghost var b := buf[..];
    ghost var c := Turned(b, at, n);
    TurnedIsReversed(b, at, n);
    assert b[at..at + n] == buf[at..at + n];
    var i := 0;
    while i < n / 2
      invariant 0 <= i <= n / 2
      invariant forall k :: 0 <= k < buf.Length ==> buf[k] == if at + i <= k < at + n - i then b[k] else c[k]
    {
      var swap := n - (i + 1);
      TurnedAt(b, at, n, i);
      TurnedAt(b, at, n, swap);
      var tmp := buf[at + i];
      buf[at + i] := buf[at + swap];
      buf[at + swap] := tmp;
      i := i + 1;
    }
    if n % 2 == 1 { TurnedAt(b, at, n, i); }
    assert buf[..] == c;
  }

  // The loop that writes the digits of value, the lowest one first.
  method WriteDigits(value: nat, base: nat, buf: array<Char>, at: nat) returns (n: nat)
    requires base == 10 || base == 16
    requires at + |LowFirst(value, base)| <= buf.Length
    modifies buf
    ensures n == |LowFirst(value, base)| && Written(old(buf[..]), buf[..], at, LowFirst(value, base))
  {
    hide Written, Last, Rest, LowFirst, Digit, HEX;
    n := 0;
    var v: nat := value;
    ghost var b, out: seq<Char> := buf[..], [];
    NothingWritten(b, at);
    while true
      invariant n == |out| && out + LowFirst(v, base) == LowFirst(value, base)
      invariant Written(b, buf[..], at, out)
      decreases v
    {
      var d := Last(v, base);
      HexDigit(d);
      var c := if base == 10 then 48 + d else HEX[d];
      ghost var before := buf[..];
      buf[at + n] := c;
      CharWritten(before, buf[..], at + n, c);
      WrittenOn(b, before, buf[..], at, out, [c]);
      FirstOut(v, base, out);
      n, out := n + 1, out + [c];
      v := Rest(v, base);
      if v == 0 {
        assert out == LowFirst(value, base);
        break;
      }
    }
  }

  lemma HexDigit(d: nat)
    requires d < 16
    ensures |HEX| == 16 && HEX[d] == Digit(d) && (d < 10 ==> Digit(d) == 48 + d)
  {
  }

  lemma FirstOut(v: nat, base: nat, out: seq<Char>)
    requires 2 <= base <= 16
    ensures out + LowFirst(v, base) ==
      out + [Digit(Last(v, base))] + if Rest(v, base) == 0 then [] else LowFirst(Rest(v, base), base)
  {
  }

  lemma NothingWritten(b: seq<Char>, at: nat)
    requires at <= |b|
    ensures Written(b, b, at, [])
  {
  }

  lemma CharWritten(b: seq<Char>, c: seq<Char>, at: nat, x: Char)
    requires at < |b| && c == b[at := x]
    ensures Written(b, c, at, [x])
  {
  }

  // ultoa
  method Ultoa(value: nat, buf: array<Char>, at: nat)
    requires value < WORD_RANGE && at + 11 <= buf.Length
    modifies buf
    ensures Written(old(buf[..]), buf[..], at, Digits(value, 10) + [0])
  {
    hide Written, LowFirst, Digits, Reversed;
    ghost var b := buf[..];
    WordDigits(value);
    LowFirstReversed(value, 10);
    var n := WriteDigits(value, 10, buf, at);
    Finish(b, buf, at, LowFirst(value, 10), n);
  }

  // What is left to do for the digits s, which are in buf from at on.
  method Finish(ghost b: seq<Char>, buf: array<Char>, at: nat, ghost s: seq<Char>, n: nat)
    requires Written(b, buf[..], at, s) && n == |s| && at + n < buf.Length
    modifies buf
    ensures Written(b, buf[..], at, Reversed(s) + [0])
  {
    hide Written;
    ghost var c := buf[..];
    WrittenIs(b, c, at, s);
    Reverse(buf, at, n);
    ghost var d := buf[..];
    WrittenOver(b, c, d, at, s, Reversed(s));
    buf[at + n] := 0;
    CharWritten(d, buf[..], at + n, 0);
    WrittenOn(b, d, buf[..], at, Reversed(s), [0]);
  }

  // ultox
  method Ultox(value: nat, buf: array<Char>)
    requires value < WORD_RANGE && 11 <= buf.Length
    modifies buf
    ensures Written(old(buf[..]), buf[..], 0, HexText(value) + [0])
  {
    hide LowFirst, Digits, Reversed;
    ghost var b := buf[..];
    WordDigits(value);
    LowFirstReversed(value, 16);
    buf[0] := 48;
    buf[1] := 120;
    ghost var c := buf[..];
    assert Written(b, c, 0, [48, 120]);
    hide Written;
    var n := WriteDigits(value, 16, buf, 2);
    Finish(c, buf, 2, LowFirst(value, 16), n);
    WrittenOn(b, c, buf[..], 0, [48, 120], Digits(value, 16) + [0]);
    assert [48, 120] + (Digits(value, 16) + [0]) == HexText(value) + [0];
  }

  // ltoa, for a word taken as a signed number.
  method Ltoa(word: int, buf: array<Char>)
    requires 0 <= word < WORD_RANGE && 12 <= buf.Length
    modifies buf
    ensures Written(old(buf[..]), buf[..], 0, SignedText(word) + [0])
  {
    hide Digits;
    if Signed(word) < 0 {
      ghost var b := buf[..];
      buf[0] := 45;
      ghost var c := buf[..];
      CharWritten(b, c, 0, 45);
      hide Written;
      Ultoa((-Signed(word)) % WORD_RANGE, buf, 1);
      WrittenOn(b, c, buf[..], 0, [45], Digits(WORD_RANGE - word, 10) + [0]);
      assert [45] + (Digits(WORD_RANGE - word, 10) + [0]) == SignedText(word) + [0];
    } else {
      Ultoa(word, buf, 0);
    }
  }

  // ------------------------------------------------------------ vsprintf

  const PERCENT: Char := 37

  // A C string: the characters before its terminating NUL.
  type Text = s: seq<Char> | 0 !in s

  // An argument on the stack.
  datatype Arg = Word(w: int) | String(s: Text)

  datatype Takes = Nothing | AWord | AString

  // What the directive %c takes.
  function Argument(c: Char): Takes {
    if c == 's' as int then AString
    else if c in DIRECTIVES then AWord
    else Nothing
  }

  // c, d, i, u, x, p, b
  const DIRECTIVES: seq<Char> := [99, 100, 105, 117, 120, 112, 98]

  const TRUE: seq<Char> := [116, 114, 117, 101]
  const FALSE: seq<Char> := [102, 97, 108, 115, 101]

  // What the directive %c is replaced by.
  function WordPiece(c: Char, w: int): seq<Char>
    requires 0 <= w < WORD_RANGE
  {
    if c == 'c' as int then [w % 0x100]
    else if c == 'd' as int || c == 'i' as int then SignedText(w)
    else if c == 'u' as int then Digits(w, 10)
    else if c == 'b' as int then (if w != 0 then TRUE else FALSE)
    else HexText(w)
  }

  // The format starts with a character or a whole directive: how long that is, how many
  // arguments it takes, whether they are there, and what it prints.
  function Width(format: Text): (w: nat)
    ensures w > 0
  {
    if format != [] && format[0] != PERCENT then 1 else 2
  }

  function Taken(format: Text): nat {
    if Width(format) == 1 || |format| < 2 || Argument(format[1]) == Nothing then 0 else 1
  }

  predicate Supplied(format: Text, args: seq<Arg>)
    requires Width(format) <= |format|
  {
    Width(format) == 1 ||
    match Argument(format[1])
    case Nothing => true
    case AWord => args != [] && args[0].Word? && 0 <= args[0].w < WORD_RANGE
    case AString => args != [] && args[0].String?
  }

  function Piece(format: Text, args: seq<Arg>): seq<Char>
    requires Width(format) <= |format| && Supplied(format, args)
  {
    if Width(format) == 1 then [format[0]]
    else
      match Argument(format[1])
      case Nothing => [format[1]]
      case AWord => WordPiece(format[1], args[0].w)
      case AString => args[0].s
  }

  // The arguments are what the format asks for.
  predicate Fits(format: Text, args: seq<Arg>) {
    |format| < Width(format)
    || (Supplied(format, args) && Taken(format) <= |args| && Fits(format[Width(format)..], args[Taken(format)..]))
  }

  function Rendered(format: Text, args: seq<Arg>): seq<Char>
    requires Fits(format, args)
  {
    if |format| < Width(format) then []
    else Piece(format, args) + Rendered(format[Width(format)..], args[Taken(format)..])
  }

  // c is b after s was printed into it; at most a NUL follows it.
  ghost predicate Printed(b: seq<Char>, c: seq<Char>, s: seq<Char>) {
    && |s| < |b| == |c|
    && (forall k :: 0 <= k < |s| ==> c[k] == s[k])
    && forall k :: |s| < k < |b| ==> c[k] == b[k]
  }

  lemma PrintedText(b: seq<Char>, c: seq<Char>, d: seq<Char>, s: seq<Char>, t: seq<Char>)
    requires Printed(b, c, s) && Written(c, d, |s|, t + [0])
    ensures Printed(b, d, s + t)
  {
  }

  lemma PrintedChar(b: seq<Char>, c: seq<Char>, d: seq<Char>, s: seq<Char>, x: Char)
    requires Printed(b, c, s) && |s| + 1 < |b| && d == c[|s| := x]
    ensures Printed(b, d, s + [x])
  {
  }

  // strcpy of the string t at src, and strlen of it.
  method Strcpy(str: array<Char>, pos: nat, src: seq<Char>, ghost t: Text) returns (n: nat)
    requires t + [0] <= src && pos + |t| < str.Length
    modifies str
    ensures n == |t| && Written(old(str[..]), str[..], pos, t + [0])
  {
    n := 0;
    assert forall k :: 0 <= k < |t| ==> src[k] == (t + [0])[k] != 0;
    while src[n] != 0
      invariant n <= |t|
      invariant forall k :: 0 <= k < str.Length ==> str[k] == if pos <= k < pos + n then src[k - pos] else old(str[k])
      decreases |t| - n
    {
      str[pos + n] := src[n];
      n := n + 1;
    }
    str[pos + n] := 0;
  }

  lemma {:induction false} DigitsAreText(n: nat)
    ensures 0 !in Digits(n, 10) && 0 !in Digits(n, 16)
  {
    NumberOfDigits(n, 10);
    NumberOfDigits(n, 16);
  }

  // The directives that take a word.
  method PrintWord(c: Char, w: int, str: array<Char>, pos: nat, buf: array<Char>, ghost b: seq<Char>, ghost s: seq<Char>)
    returns (after: nat)
    requires c in DIRECTIVES && 0 <= w < WORD_RANGE && str != buf && buf.Length == BUF_LEN && |b| == str.Length
    requires Printed(b, str[..], s) && pos == |s| && pos + |WordPiece(c, w)| < str.Length
    modifies str, buf
    ensures after == |s + WordPiece(c, w)| && Printed(b, str[..], s + WordPiece(c, w))
  {
    hide Written, Printed, Digits;
    ghost var t := WordPiece(c, w);
    ghost var before := str[..];
    if c == 'c' as int {
      str[pos] := w % 0x100;
      PrintedChar(b, before, str[..], s, w % 0x100);
      return pos + 1;
    }
    var n;
    forall k | 0 <= k < BUF_LEN { buf[k] := 0; }
    ghost var empty := buf[..];
    DigitsAreText(w);
    DigitsAreText(WORD_RANGE - w);
    if c == 'd' as int || c == 'i' as int {
      Ltoa(w, buf);
      WrittenIs(empty, buf[..], 0, t + [0]);
      n := Strcpy(str, pos, buf[..], t);
    } else if c == 'u' as int {
      Ultoa(w, buf, 0);
      WrittenIs(empty, buf[..], 0, t + [0]);
      n := Strcpy(str, pos, buf[..], t);
    } else if c == 'x' as int || c == 'p' as int {
      Ultox(w, buf);
      WrittenIs(empty, buf[..], 0, t + [0]);
      n := Strcpy(str, pos, buf[..], t);
    } else {
      n := Strcpy(str, pos, if w != 0 then TRUE + [0] else FALSE + [0], t);
    }
    PrintedText(b, before, str[..], s, t);
    return pos + n;
  }

  /** vsprintf: the buffer holds the rendering and a NUL, and the rest of it is as it was. */
  method Vsprintf(str: array<Char>, format: Text, args: seq<Arg>) returns (length: nat)
    requires Fits(format, args) && |Rendered(format, args)| < str.Length
    modifies str
    ensures length == |Rendered(format, args)|
    ensures Written(old(str[..]), str[..], 0, Rendered(format, args) + [0])
  {
    hide Printed, Written, Fits, Rendered;
    var buf := new Char[BUF_LEN];
    var pos, i, a := 0, 0, 0;
    ghost var b, s: seq<Char> := str[..], [];
    NothingPrinted(b);
    while i < |format|
      invariant i <= |format| && a <= |args| && pos == |s| && Printed(b, str[..], s)
      invariant Fits(format[i..], args[a..])
      invariant s + Rendered(format[i..], args[a..]) == Rendered(format, args)
    {
      OneStep(format, args, i, a, s);
      ghost var before := str[..];
      ghost var f, g := format[i..], args[a..];
      if format[i] == PERCENT {
        i := i + 1;
        if i == |format| { break; }
        var c := format[i];
        if c == 's' as int {
          var t := args[a].s;
          var n := Strcpy(str, pos, t + [0], t);
          PrintedText(b, before, str[..], s, t);
          pos, a := pos + n, a + 1;
        } else if c in DIRECTIVES {
          pos := PrintWord(c, args[a].w, str, pos, buf, b, s);
          a := a + 1;
        } else {
          str[pos] := c;
          PrintedChar(b, before, str[..], s, c);
          pos := pos + 1;
        }
      } else {
        str[pos] := format[i];
        PrintedChar(b, before, str[..], s, format[i]);
        pos := pos + 1;
      }
      s := s + Piece(f, g);
      i := i + 1;
    }
    ghost var c := str[..];
    EndOfFormat(format[i..], args[a..]);
    assert s == Rendered(format, args) by { assert s + [] == s; }
    str[pos] := 0;
    PrintedAll(b, c, str[..], s);
    return pos;
  }

  lemma NothingPrinted(b: seq<Char>)
    requires b != []
    ensures Printed(b, b, [])
  {
  }

  lemma PrintedAll(b: seq<Char>, c: seq<Char>, d: seq<Char>, s: seq<Char>)
    requires Printed(b, c, s) && d == c[|s| := 0]
    ensures Written(b, d, 0, s + [0])
  {
  }

  // What is printed for the format at i, with the arguments from a on.
  lemma OneStep(format: Text, args: seq<Arg>, i: nat, a: nat, s: seq<Char>)
    requires i < |format| && a <= |args| && Fits(format[i..], args[a..])
    ensures var f, g := format[i..], args[a..];
      if format[i] == PERCENT && i + 1 == |format| then
        Rendered(f, g) == []
      else
        && Width(f) <= |f| && Supplied(f, g) && a + Taken(f) <= |args|
        && Fits(format[i + Width(f)..], args[a + Taken(f)..])
        && s + Rendered(f, g) == s + Piece(f, g) + Rendered(format[i + Width(f)..], args[a + Taken(f)..])
  {
  }

  lemma EndOfFormat(format: Text, args: seq<Arg>)
    requires format == [] || format == [PERCENT]
    ensures Fits(format, args) && Rendered(format, args) == []
  {
  }

  // ------------------------------------------------- what renderings are

  // The format asks for just these arguments, and does not end in the middle of a directive.
  predicate Exact(format: Text, args: seq<Arg>) {
    if format == [] then args == []
    else
      && Width(format) <= |format| && Supplied(format, args) && Taken(format) <= |args|
      && Exact(format[Width(format)..], args[Taken(format)..])
  }

  lemma SameStart(f: Text, a: seq<Arg>, g: Text, b: seq<Arg>)
    requires f != [] && Width(f) <= |f| && Supplied(f, a) && Taken(f) <= |a|
    ensures var w, t := Width(f), Taken(f);
      && Width(f + g) == w && Taken(f + g) == t && Supplied(f + g, a + b) && Piece(f + g, a + b) == Piece(f, a)
      && (f + g)[w..] == f[w..] + g && (a + b)[t..] == a[t..] + b
  {
  }

  /** Formats side by side print side by side. */
  lemma {:induction false} RenderedInTurn(f: Text, a: seq<Arg>, g: Text, b: seq<Arg>)
    requires Exact(f, a) && Fits(g, b)
    ensures Fits(f, a) && Fits(f + g, a + b) && Rendered(f + g, a + b) == Rendered(f, a) + Rendered(g, b)
    decreases |f|
  {
    hide Supplied, Piece, Taken, Width;
    if f == [] {
      assert f + g == g && a + b == b;
      assert Rendered(f, a) == [];
    } else {
      var w, t := Width(f), Taken(f);
      SameStart(f, a, g, b);
      RenderedInTurn(f[w..], a[t..], g, b);
    }
  }

  /** What is not a directive prints as it is. */
  lemma {:induction false} RenderedAsIs(f: Text)
    requires PERCENT !in f
    ensures Exact(f, []) && Fits(f, []) && Rendered(f, []) == f
  {
    if f != [] {
      RenderedAsIs(f[1..]);
    }
  }

  // ---------------------------------------------- what each directive prints

  // The format of the one directive %c.
  function Directive(c: char): (f: seq<Char>)
    requires c as int < 256
  {
    ['%' as int, c as int]
  }

  // The characters of a string.
  function Ascii(t: string): seq<Char>
    requires forall i :: 0 <= i < |t| ==> t[i] as int < 256
  {
    seq(|t|, i requires 0 <= i < |t| => t[i] as int)
  }

  /** A number as it is usually written: digits, and no needless zero in front. */
  ghost predicate Numeral(t: seq<Char>, base: nat) {
    t != [] && (forall k :: 0 <= k < |t| ==> IsDigit(t[k], base)) && (|t| > 1 ==> t[0] != '0' as int)
  }

  // f with the arguments a prints t.
  predicate Prints(f: seq<Char>, a: seq<Arg>, t: seq<Char>) { 0 !in f && Exact(f, a) && Fits(f, a) && Rendered(f, a) == t }

  lemma OneDirective(c: char, a: seq<Arg>)
    requires 0 < c as int < 256 && |a| <= 1
    requires match Argument(c as int)
      case Nothing => a == []
      case AWord => |a| == 1 && a[0].Word? && 0 <= a[0].w < WORD_RANGE
      case AString => |a| == 1 && a[0].String?
    ensures Prints(Directive(c), a, Piece(Directive(c), a))
  {
    var f: Text := Directive(c);
    assert f[Width(f)..] == [] && a[Taken(f)..] == [];
    assert Rendered(f[Width(f)..], a[Taken(f)..]) == [];
    assert Rendered(f, a) == Piece(f, a) + [] == Piece(f, a);
  }

  lemma DigitsAreNumeral(n: nat, base: nat)
    requires 2 <= base <= 16
    ensures Numeral(Digits(n, base), base) && Number(Digits(n, base), base) == n
  {
    NumberOfDigits(n, base);
    DigitCount(n, base);
  }

  /** %d and %i print a word as a signed number ... */
  lemma SignedDirective(c: char, w: int)
    requires (c == 'd' || c == 'i') && 0 <= w < WORD_RANGE
    ensures exists t :: Prints(Directive(c), [Word(w)], t) && SignedNumeral(t, Signed(w))
  {
    OneDirective(c, [Word(w)]);
    var raw := if Signed(w) < 0 then WORD_RANGE - w else w;
    DigitsAreNumeral(raw, 10);
    if Signed(w) < 0 { assert SignedText(w)[1..] == Digits(raw, 10); }
    assert Prints(Directive(c), [Word(w)], SignedText(w)) && SignedNumeral(SignedText(w), Signed(w));
  }

  // t is n, with a minus in front if it is negative.
  ghost predicate SignedNumeral(t: seq<Char>, n: int) {
    if n < 0 then t != [] && t[0] == '-' as int && Numeral(t[1..], 10) && Number(t[1..], 10) == -n
    else Numeral(t, 10) && Number(t, 10) == n
  }

  /** ... %u as an unsigned one ... */
  lemma UnsignedDirective(w: int)
    requires 0 <= w < WORD_RANGE
    ensures exists t :: Prints(Directive('u'), [Word(w)], t) && SignedNumeral(t, w)
  {
    OneDirective('u', [Word(w)]);
    DigitsAreNumeral(w, 10);
    assert Prints(Directive('u'), [Word(w)], Digits(w, 10)) && SignedNumeral(Digits(w, 10), w);
  }

  /** ... %x and %p in hexadecimal ... */
  lemma HexDirective(c: char, w: int)
    requires (c == 'x' || c == 'p') && 0 <= w < WORD_RANGE
    ensures exists t :: Prints(Directive(c), [Word(w)], t) && HexNumeral(t, w)
  {
    OneDirective(c, [Word(w)]);
    DigitsAreNumeral(w, 16);
    assert HexText(w)[2..] == Digits(w, 16);
    assert Prints(Directive(c), [Word(w)], HexText(w)) && HexNumeral(HexText(w), w);
  }

  // t is 0x and the hexadecimal digits of n.
  ghost predicate HexNumeral(t: seq<Char>, n: int) {
    |t| > 2 && t[0] == '0' as int && t[1] == 'x' as int && Numeral(t[2..], 16) && Number(t[2..], 16) == n
  }

  /** ... %b as a truth value, %c as the character in its low byte ... */
  lemma WordDirectives(w: int)
    requires 0 <= w < WORD_RANGE
    ensures Prints(Directive('b'), [Word(w)], if w != 0 then Ascii("true") else Ascii("false"))
    ensures Prints(Directive('c'), [Word(w)], [w % 256])
  {
    OneDirective('b', [Word(w)]);
    OneDirective('c', [Word(w)]);
    assert TRUE == Ascii("true") && FALSE == Ascii("false");
  }

  /** ... %s as the string it is, and % in front of anything else as that. */
  lemma OtherDirectives(t: Text, c: char)
    requires 0 < c as int < 256 && c !in "scdiuxpb"
    ensures Prints(Directive('s'), [String(t)], t) && Prints(Directive(c), [], [c as int])
  {
    OneDirective('s', [String(t)]);
    OneDirective(c, []);
  }

  // The digits, in order, are the usual characters.
  lemma UsualDigits(d: int)
    requires 0 <= d < 16
    ensures Digit(d) == HEX[d] == Ascii("0123456789ABCDEF")[d] && DigitValue(HEX[d]) == d
  {
  }
}
