/**
 Numbers as text: printnum and the number formats of vprintfmt (lib/printfmt.c) against strtol (lib/string.c, as in
 section 7.22.1.4 of ISO C11 but without overflow detection), and the names ltostr gives to small numbers.
 A string ends where its sequence ends; a `long` has 32 bits and wraps round.
 */
module NumberText {
  import opened Lists

  const HEX: string := "0123456789abcdef"
  const WORD: int := 0x1_0000_0000

  function Wrap32(x: int): int { (x + WORD / 2) % WORD - WORD / 2 }

  // ---------------------------------------------------------------- printing

  function Pad(n: int, c: char): (t: string)
    ensures |t| == if n > 0 then n else 0
    ensures forall i :: 0 <= i < |t| ==> t[i] == c
  {
    if n <= 0 then "" else Pad(n - 1, c) + [c]
  }

  function HexChar(d: nat): char
    requires d < 16
  {
    HEX[d]
  }

  function Digits(n: nat, base: nat): string
    requires 2 <= base <= 16
  {
    if n >= base then Digits(n / base, base) + [HexChar(n % base)] else [HexChar(n)]
  }

  /** What printnum emits: the digits, padded on the left to the width. */
  function NumText(n: nat, base: nat, width: int, pad: char): string
    requires 2 <= base <= 16
  {
    Pad(width - |Digits(n, base)|, pad) + Digits(n, base)
  }

  /** What %d emits: the sign goes before the padding. */
  function SignedText(n: int, width: int, pad: char): string {
    if n < 0 then "-" + NumText(-n, 10, width, pad) else NumText(n, 10, width, pad)
  }

  /** Where putch sends its characters. */
  class Sink {
    var text: string

    constructor ()
      ensures text == ""
    {
      text := "";
    }

    method Putch(c: char)
      modifies this
      ensures text == old(text) + [c]
    {
      text := text + [c];
    }
  }

  /** printnum */
  method PrintNum(sink: Sink, num: nat, base: nat, width: int, padc: char)
    requires 2 <= base <= 16
    modifies sink
    ensures sink.text == old(sink.text) + NumText(num, base, width, padc)
    decreases num
  {
    hide HexChar, Digits, NumText, Pad;
    NumTextStep(num, base, width, padc);
    if num >= base {
      PrintNum(sink, num / base, base, width - 1, padc);
    } else {
      PrintPad(sink, width - 1, padc);
    }
    sink.Putch(HexChar(num % base));
  }

  /** Its padding loop. */
  method PrintPad(sink: Sink, n: int, padc: char)
    modifies sink
    ensures sink.text == old(sink.text) + Pad(n, padc)
  {
    var w := n;
    while w > 0
      invariant n <= 0 ==> w == n
      invariant n > 0 ==> 0 <= w <= n
      invariant sink.text == old(sink.text) + Pad(n - (if w < 0 then 0 else w), padc)
      decreases w
    {
      sink.Putch(padc);
      w := w - 1;
    }
  }

  lemma NumTextStep(n: nat, base: nat, width: int, pad: char)
    requires 2 <= base <= 16
    ensures n % base < base && (n >= base ==> n / base < n)
    ensures NumText(n, base, width, pad) ==
            (if n >= base then NumText(n / base, base, width - 1, pad) else Pad(width - 1, pad)) + [HexChar(n % base)]
  {
    hide HexChar, Pad;
  }

  /** The %d path of vprintfmt. */
  method PrintSigned(sink: Sink, num: int, width: int, padc: char)
    modifies sink
    ensures sink.text == old(sink.text) + SignedText(num, width, padc)
  {
    var n := num;
    if n < 0 {
      sink.Putch('-');
      n := -n;
    }
    PrintNum(sink, n, 10, width, padc);
  }

  // ---------------------------------------------------------------- reading

  predicate IsBlank(c: char) { c == ' ' || c == '\t' }

  /** The value of a digit; 36 if the character is none. */
  function DigitOf(c: char): nat {
    if '0' <= c <= '9' then c as int - '0' as int
    else if 'a' <= c <= 'z' then c as int - 'a' as int + 10
    else if 'A' <= c <= 'Z' then c as int - 'A' as int + 10
    else 36
  }

  /** A digit of the base; no other character is, however large the base. */
  predicate IsDigit(c: char, base: nat) {
    DigitOf(c) < 36 && DigitOf(c) < base
  }

  function SkipBlanks(s: string, i: nat): (j: nat)
    requires i <= |s|
    ensures i <= j <= |s|
    decreases |s| - i
  {
    if i < |s| && IsBlank(s[i]) then SkipBlanks(s, i + 1) else i
  }

  function SkipSign(s: string, i: nat): (j: nat)
    requires i <= |s|
    ensures i <= j <= |s|
  {
    if i < |s| && (s[i] == '+' || s[i] == '-') then i + 1 else i
  }

  /** The hex or octal prefix, and the base it settles. */
  function SkipPrefix(s: string, i: nat, base: nat): (r: (nat, nat))
    requires i <= |s|
    ensures i <= r.0 <= |s|
  {
    if (base == 0 || base == 16) && i + 1 < |s| && s[i] == '0' && s[i + 1] == 'x' then (i + 2, 16)
    else if base == 0 && i < |s| && s[i] == '0' then (i + 1, 8)
    else (i, if base == 0 then 10 else base)
  }

  /** The digits from `i` on: the value accumulated after `val`, and where they end. */
  function ReadDigits(s: string, i: nat, base: nat, val: int): (r: (int, nat))
    requires i <= |s|
    ensures i <= r.1 <= |s|
    decreases |s| - i
  {
    if i < |s| && IsDigit(s[i], base) then ReadDigits(s, i + 1, base, Wrap32(val * base + DigitOf(s[i])))
    else (val, i)
  }

  /** strtol: the value, and how much of the string it consumed */
  function StrtolSpec(s: string, base: nat): (int, nat) {
    var i := SkipBlanks(s, 0);
    var j := SkipSign(s, i);
    var (p, b) := SkipPrefix(s, j, base);
    var (val, end) := ReadDigits(s, p, b, 0);
    (if i < j && s[i] == '-' then Wrap32(-val) else val, end)
  }

  /** strtol */
  method Strtol(s: string, base: nat) returns (value: int, end: nat)
    ensures (value, end) == StrtolSpec(s, base)
  {
    hide DigitOf, IsBlank, Wrap32;
    var neg, val, i, b := false, 0, 0, base;
    while i < |s| && IsBlank(s[i])
      invariant 0 <= i <= |s| && SkipBlanks(s, 0) == SkipBlanks(s, i)
    {
      i := i + 1;
    }
    if i < |s| && s[i] == '+' {
      i := i + 1;
    } else if i < |s| && s[i] == '-' {
      i, neg := i + 1, true;
    }
    if (b == 0 || b == 16) && i + 1 < |s| && s[i] == '0' && s[i + 1] == 'x' {
      i, b := i + 2, 16;
    } else if b == 0 && i < |s| && s[i] == '0' {
      i, b := i + 1, 8;
    } else if b == 0 {
      b := 10;
    }
    val, i := AccumulateDigits(s, i, b);
    return if neg then Wrap32(-val) else val, i;
  }

  /** The last loop of strtol. */
  method AccumulateDigits(s: string, start: nat, base: nat) returns (val: int, i: nat)
    requires start <= |s|
    ensures (val, i) == ReadDigits(s, start, base, 0)
  {
    hide DigitOf, IsDigit, Wrap32;
    val, i := 0, start;
    while i < |s| && IsDigit(s[i], base)
      invariant start <= i <= |s| && ReadDigits(s, start, base, 0) == ReadDigits(s, i, base, val)
    {
      val := Wrap32(val * base + DigitOf(s[i]));
      i := i + 1;
    }
  }

  // ---------------------------------------------------------------- the output

  /** A digit of the base, which no other part of the syntax could be mistaken for. */
  predicate PlainDigit(c: char, base: nat) {
    IsDigit(c, base) && !IsBlank(c) && c != 'x' && c != '+' && c != '-'
  }

  lemma HexDigit(d: nat, base: nat)
    requires d < base <= 16
    ensures DigitOf(HexChar(d)) == d && PlainDigit(HexChar(d), base)
  {
  }

  ghost predicate AllPlain(t: string, base: nat) {
    forall i :: 0 <= i < |t| ==> PlainDigit(t[i], base)
  }

  lemma AppendPlain(t: string, d: nat, base: nat)
    requires AllPlain(t, base) && d < base <= 16
    ensures AllPlain(t + [HexChar(d)], base)
  {
    HexDigit(d, base);
    hide HexChar, PlainDigit;
  }

  lemma {:induction false} DigitsArePlain(n: nat, base: nat)
    requires 2 <= base <= 16
    ensures AllPlain(Digits(n, base), base)
  {
    hide HexChar, AllPlain;
    if n < base {
      assert AllPlain([], base) by { NothingPlain(base); }
      AppendPlain([], n, base);
      assert [] + [HexChar(n)] == [HexChar(n)];
    } else {
      DigitsArePlain(n / base, base);
      AppendPlain(Digits(n / base, base), n % base, base);
    }
  }

  lemma NothingPlain(base: nat)
    ensures AllPlain([], base)
  {
  }

  /** The output is exactly as long as the width asks or the digits need. */
  lemma OutputLength(n: nat, base: nat, width: int, pad: char)
    requires 2 <= base <= 16
    ensures var t, d := NumText(n, base, width, pad), |Digits(n, base)|;
      |t| == (if width > d then width else d) && d >= 1
  {
  }

  // ---------------------------------------------------------------- arithmetic modulo 2^32

  /** The integer that Wrap32 takes away, in words. */
  function Turns(x: int): int { (x + WORD / 2) / WORD }

  lemma WrapIs(x: int)
    ensures Wrap32(x) == x - Turns(x) * WORD && -WORD / 2 <= Wrap32(x) < WORD / 2
  {
  }

  lemma WrapOnce(x: int, k: int)
    ensures Wrap32(x + k * WORD) == Wrap32(x)
  {
    WrapIs(x);
    WrapIs(x + k * WORD);
    var d := Turns(x + k * WORD) - k - Turns(x);
    assert Wrap32(x) - Wrap32(x + k * WORD) == d * WORD;
    assert -WORD < d * WORD < WORD;
  }

  /** Wrapping early changes nothing. */
  lemma WrapStep(x: int, base: nat, d: nat)
    ensures Wrap32(Wrap32(x) * base + d) == Wrap32(x * base + d)
  {
    WrapIs(x);
    var k := Turns(x);
    assert Wrap32(x) * base + d == (x * base + d) + (-(k * base)) * WORD by {
      assert (x - k * WORD) * base == x * base - (k * base) * WORD;
    }
    WrapOnce(x * base + d, -(k * base));
  }

  lemma WrapNegative(x: int)
    ensures Wrap32(-Wrap32(x)) == Wrap32(-x)
  {
    WrapIs(x);
    WrapOnce(-x, Turns(x));
    assert -Wrap32(x) == -x + Turns(x) * WORD;
  }

  // ---------------------------------------------------------------- strtol undoes printnum

  /** One digit more at the end. */
  lemma {:induction false} ReadSnoc(s: string, c: char, i: nat, base: nat, val: int)
    requires i <= |s| && (forall j :: i <= j < |s| ==> IsDigit(s[j], base)) && IsDigit(c, base)
    ensures ReadDigits(s, i, base, val).1 == |s|
    ensures ReadDigits(s + [c], i, base, val) == (Wrap32(ReadDigits(s, i, base, val).0 * base + DigitOf(c)), |s| + 1)
    decreases |s| - i
  {
    hide Wrap32, DigitOf, IsDigit;
    if i < |s| {
      ReadSnoc(s, c, i + 1, base, Wrap32(val * base + DigitOf(s[i])));
    } else {
      assert (s + [c])[i] == c;
      assert ReadDigits(s + [c], i + 1, base, Wrap32(val * base + DigitOf(c))).1 == |s| + 1;
    }
  }

  lemma DigitsSplit(n: nat, base: nat) returns (q: nat, d: nat)
    requires 2 <= base <= 16 && n >= base
    ensures q < n && d < base && n == q * base + d && Digits(n, base) == Digits(q, base) + [HexChar(d)]
  {
    q, d := n / base, n % base;
  }

  lemma ReadsOneMore(front: string, t: string, q: nat, d: nat, base: nat)
    requires 2 <= base <= 16 && d < base && AllPlain(t, base)
    requires ReadDigits(front + t, |front|, base, 0) == (Wrap32(q), |front + t|)
    ensures var s := front + (t + [HexChar(d)]);
      ReadDigits(s, |front|, base, 0) == (Wrap32(q * base + d), |s|)
  {
    hide Wrap32, HexChar, ReadDigits;
    forall j | |front| <= j < |front + t| ensures IsDigit((front + t)[j], base) {
      assert (front + t)[j] == t[j - |front|];
    }
    hide DigitOf, IsDigit;
    HexDigit(d, base);
    ReadSnoc(front + t, HexChar(d), |front|, base, 0);
    assert front + (t + [HexChar(d)]) == front + t + [HexChar(d)];
    WrapStep(q, base, d);
  }

  lemma ReadsOne(front: string, d: nat, base: nat)
    requires 2 <= base <= 16 && d < base
    ensures ReadDigits(front + [HexChar(d)], |front|, base, 0) == (Wrap32(d), |front| + 1)
  {
    hide Wrap32, HexChar, DigitOf;
    HexDigit(d, base);
    ReadSnoc(front, HexChar(d), |front|, base, 0);
  }

  /** Reading the digits of `n` after any text gives `n`, wrapped round. */
  lemma {:induction false} ReadsDigits(front: string, n: nat, base: nat)
    requires 2 <= base <= 16
    ensures var s := front + Digits(n, base); ReadDigits(s, |front|, base, 0) == (Wrap32(n), |s|)
    decreases n
  {
    if n < base {
      hide Wrap32, HexChar, ReadDigits;
      ReadsOne(front, n, base);
    } else {
      hide Wrap32, HexChar, ReadDigits, Digits, AllPlain;
      var q, d := DigitsSplit(n, base);
      ReadsDigits(front, q, base);
      DigitsArePlain(q, base);
      ReadsOneMore(front, Digits(q, base), q, d, base);
    }
  }

  /** Leading zeros are read and add nothing. */
  lemma {:induction false} ReadsZeros(s: string, i: nat, j: nat, base: nat)
    requires i <= j <= |s| && base > 0 && forall k :: i <= k < j ==> s[k] == '0'
    ensures ReadDigits(s, i, base, 0) == ReadDigits(s, j, base, 0)
    decreases j - i
  {
    if i < j {
      assert Wrap32(0 * base + DigitOf(s[i])) == 0;
      ReadsZeros(s, i + 1, j, base);
    }
  }

  lemma {:induction false} SkipsBlanks(s: string, i: nat, j: nat)
    requires i <= j < |s| && (forall k :: i <= k < j ==> s[k] == ' ') && !IsBlank(s[j])
    ensures SkipBlanks(s, i) == j
    decreases j - i
  {
    if i < j {
      SkipsBlanks(s, i + 1, j);
    }
  }

  lemma Pieces(n: nat, base: nat, width: int, pad: char)
    requires 2 <= base <= 16
    ensures var t, d := NumText(n, base, width, pad), Digits(n, base);
      var k := |t| - |d|;
      && 0 <= k < |t| && t == t[..k] + d && |d| >= 1
      && (forall i :: 0 <= i < k ==> t[i] == pad)
      && (forall i :: k <= i < |t| ==> PlainDigit(t[i], base))
      && (k > 0 <==> width > |d|)
  {
    OutputLength(n, base, width, pad);
    DigitsArePlain(n, base);
    hide Digits, PlainDigit, Pad;
    var t, d := NumText(n, base, width, pad), Digits(n, base);
    var k := |t| - |d|;
    assert t[..k] == Pad(width - |d|, pad);
    forall i | k <= i < |t| ensures PlainDigit(t[i], base) { assert t[i] == d[i - k]; }
  }

  /** Where the number starts, reading it gives it back. */
  lemma ReadsText(front: string, n: nat, base: nat, width: int, pad: char)
    requires 2 <= base <= 16 && (pad == '0' || width <= |Digits(n, base)|)
    ensures var s := front + NumText(n, base, width, pad); ReadDigits(s, |front|, base, 0) == (Wrap32(n), |s|)
  {
    hide Digits, PlainDigit, ReadDigits, Wrap32, NumText;
    Pieces(n, base, width, pad);
    var t := NumText(n, base, width, pad);
    ReadsAfterZeros(front, t[..|t| - |Digits(n, base)|], n, base);
  }

  lemma ReadsAfterZeros(front: string, zeros: string, n: nat, base: nat)
    requires 2 <= base <= 16 && forall i :: 0 <= i < |zeros| ==> zeros[i] == '0'
    ensures var s := front + (zeros + Digits(n, base)); ReadDigits(s, |front|, base, 0) == (Wrap32(n), |s|)
  {
    hide Digits, ReadDigits, Wrap32;
    var s := front + (zeros + Digits(n, base));
    assert s == front + zeros + Digits(n, base);
    ReadsZeros(s, |front|, |front + zeros|, base);
    ReadsDigits(front + zeros, n, base);
  }

  /** strtol undoes printnum for every number, base, width, and padding with spaces or zeros: it consumes the whole
      text and returns the number, modulo 2^32 as a long - so the number itself iff that is below 2^31. */
  lemma StrtolUndoesPrintnum(n: nat, base: nat, width: int, pad: char)
    requires 2 <= base <= 16 && (pad == ' ' || pad == '0')
    ensures var t := NumText(n, base, width, pad);
      StrtolSpec(t, base) == (Wrap32(n), |t|)
    ensures StrtolSpec(NumText(n, base, width, pad), base).0 == n <==> n < WORD / 2
  {
    hide Digits, NumText, ReadDigits, StrtolSpec, Wrap32, PlainDigit;
    var t := NumText(n, base, width, pad);
    TextStarts(n, base, width, pad);
    Pieces(n, base, width, pad);
    var k := |t| - |Digits(n, base)|;
    if pad == ' ' {
      ReadsDigits(t[..k], n, base);
    } else {
      ReadsText("", n, base, width, pad);
      assert "" + t == t;
    }
    WrapFits(n);
  }

  lemma WrapFits(n: nat)
    ensures Wrap32(n) == n <==> n < WORD / 2
  {
    WrapIs(n);
  }

  /** strtol skips the blanks and finds no sign and no prefix. */
  lemma Starts(t: string, base: nat, i: nat)
    requires 2 <= base <= 16 && i < |t|
    requires forall k :: 0 <= k < i ==> t[k] == ' '
    requires forall k :: i <= k < |t| ==> t[k] == '0' || PlainDigit(t[k], base)
    ensures StrtolSpec(t, base) == ReadDigits(t, i, base, 0)
  {
    hide ReadDigits;
    SkipsBlanks(t, 0, i);
  }

  /** Before the number there are blanks at most. */
  lemma TextStarts(n: nat, base: nat, width: int, pad: char)
    requires 2 <= base <= 16 && (pad == ' ' || pad == '0')
    ensures var t := NumText(n, base, width, pad);
      var i := if pad == ' ' then |t| - |Digits(n, base)| else 0;
      0 <= i < |t| && StrtolSpec(t, base) == ReadDigits(t, i, base, 0)
  {
    hide Digits, NumText, ReadDigits, StrtolSpec, PlainDigit;
    var t := NumText(n, base, width, pad);
    Pieces(n, base, width, pad);
    Starts(t, base, if pad == ' ' then |t| - |Digits(n, base)| else 0);
  }

  /** For %d the round trip extends to negative numbers exactly if no padding comes between the sign and the digits,
      or the padding is zeros; after a sign strtol skips no blanks. */
  lemma SignedRoundTrip(n: int, width: int, pad: char)
    requires pad == ' ' || pad == '0'
    ensures var t := SignedText(n, width, pad);
      StrtolSpec(t, 10) == (Wrap32(n), |t|) <==> n >= 0 || pad == '0' || width <= |Digits(-n, 10)|
  {
    if n >= 0 {
      hide Digits, NumText, StrtolSpec, Wrap32;
      StrtolUndoesPrintnum(n, 10, width, pad);
    } else {
      hide Digits, NumText, StrtolSpec, Wrap32;
      NegativeRoundTrip(-n, width, pad);
    }
  }

  lemma AfterMinus(u: string)
    requires |u| > 0 && u[0] != 'x'
    ensures var t := "-" + u;
      StrtolSpec(t, 10) == (Wrap32(-ReadDigits(t, 1, 10, 0).0), ReadDigits(t, 1, 10, 0).1)
  {
    hide ReadDigits, Wrap32;
    var t := "-" + u;
    assert SkipBlanks(t, 0) == 0 && SkipSign(t, 0) == 1;
  }

  lemma NegativeRoundTrip(m: nat, width: int, pad: char)
    requires m > 0 && (pad == ' ' || pad == '0')
    ensures var t := "-" + NumText(m, 10, width, pad);
      StrtolSpec(t, 10) == (Wrap32(0 - m), |t|) <==> pad == '0' || width <= |Digits(m, 10)|
  {
    hide Digits, NumText, StrtolSpec, ReadDigits, Wrap32, PlainDigit;
    var u := NumText(m, 10, width, pad);
    assert |u| > 0 && (u[0] == pad || PlainDigit(u[0], 10)) && (width > |Digits(m, 10)| ==> u[0] == pad) by {
      Pieces(m, 10, width, pad);
    }
    assert u[0] != 'x' by { NotX(u[0]); }
    AfterMinus(u);
    if pad == '0' || width <= |Digits(m, 10)| {
      ReadsText("-", m, 10, width, pad);
      WrapNegative(m);
    } else {
      StopsAtBlank("-" + u, 1);
    }
  }

  lemma NotX(c: char)
    ensures c == ' ' || c == '0' || PlainDigit(c, 10) ==> c != 'x'
  {
  }

  lemma StopsAtBlank(s: string, i: nat)
    requires i < |s| && s[i] == ' '
    ensures ReadDigits(s, i, 10, 0) == (0, i)
  {
  }

  // ---------------------------------------------------------------- ltostr

  /** ltostr of a number that is not negative: its loop stops when the next digit is zero */
  function LtoText(v: nat): string {
    (if v / 10 % 10 != 0 then LtoText(v / 10) else "") + [HexChar(v % 10)]
  }

  /** No digit but the last is zero. */
  predicate NoInnerZero(v: nat) {
    v < 10 || (v / 10 % 10 != 0 && NoInnerZero(v / 10))
  }

  lemma {:induction false} LtoTextLength(v: nat)
    ensures 1 <= |LtoText(v)| <= |Digits(v, 10)|
    ensures |LtoText(v)| == |Digits(v, 10)| ==> NoInnerZero(v)
  {
    if v / 10 % 10 != 0 {
      LtoTextLength(v / 10);
    } else if v >= 10 {
      OutputLength(v / 10, 10, 0, ' ');
    }
  }

  /** ltostr writes the decimal digits of a number exactly if none of them but the last is zero. */
  lemma {:induction false} LtostrIsDecimalIff(v: nat)
    ensures LtoText(v) == Digits(v, 10) <==> NoInnerZero(v)
  {
    LtoTextLength(v);
    if NoInnerZero(v) && v >= 10 {
      LtostrIsDecimalIff(v / 10);
    }
  }

  lemma LtoTextEnds(v: nat)
    ensures LtoText(v) == (if v / 10 % 10 != 0 then LtoText(v / 10) else "") + [HexChar(v % 10)]
  {
    hide HexChar;
  }

  lemma OneDigitText(v: nat)
    requires v < 10
    ensures Digits(v, 10) == LtoText(v) == [HexChar(v)]
  {
    hide HexChar, LtoText;
    LtoTextEnds(v);
    assert v / 10 == 0 && v % 10 == v;
  }

  lemma DigitsEnd(v: nat)
    requires v >= 10
    ensures var d := Digits(v / 10, 10);
      Digits(v, 10) == d + [HexChar(v % 10)] && |d| > 0 && d[|d| - 1] == HexChar(v / 10 % 10)
    ensures HexChar(v / 10 % 10) == '0' <==> v / 10 % 10 == 0
  {
  }

  /** `t` is the end of `d`, back to the first zero after the last digit. */
  ghost predicate IsTail(t: string, d: string) {
    && 1 <= |t| <= |d| && t == d[|d| - |t|..]
    && (forall k :: 0 <= k < |t| - 1 ==> t[k] != '0')
    && (|t| < |d| ==> d[|d| - |t| - 1] == '0')
  }

  lemma TailGrows(t: string, d: string, c: char)
    requires d != []
    ensures if d[|d| - 1] == '0' then IsTail([c], d + [c]) else IsTail(t, d) ==> IsTail(t + [c], d + [c])
  {
    if IsTail(t, d) {
      assert t[|t| - 1] == d[|d| - 1];
      assert (d + [c])[|d| - |t|..] == t + [c];
    }
  }

  /** In any case it writes an end of the decimal digits. */
  lemma {:induction false} LtostrIsTail(v: nat)
    ensures IsTail(LtoText(v), Digits(v, 10))
  {
    hide Digits, LtoText, HexChar, IsTail;
    LtoTextEnds(v);
    if v < 10 {
      OneDigitText(v);
      assert IsTail([HexChar(v)], [HexChar(v)]) by { TailOfOne(HexChar(v)); }
    } else {
      LtostrIsTail(v / 10);
      DigitsEnd(v);
      TailGrows(LtoText(v / 10), Digits(v / 10, 10), HexChar(v % 10));
      assert [] + [HexChar(v % 10)] == [HexChar(v % 10)];
    }
  }

  lemma TailOfOne(c: char)
    ensures IsTail([c], [c])
  {
  }

  lemma UnpaddedText(n: nat, base: nat)
    requires 2 <= base <= 16
    ensures NumText(n, base, 0, ' ') == Digits(n, base)
  {
    hide Digits;
    assert Pad(0 - |Digits(n, base)|, ' ') == "";
  }

  /** The text of a number below 2^31 determines the number. */
  lemma DigitsDetermine(v: nat, w: nat)
    requires v < WORD / 2 && w < WORD / 2 && Digits(v, 10) == Digits(w, 10)
    ensures v == w
  {
    hide Digits, NumText, StrtolSpec;
    UnpaddedText(v, 10);
    UnpaddedText(w, 10);
    StrtolUndoesPrintnum(v, 10, 0, ' ');
    StrtolUndoesPrintnum(w, 10, 0, ' ');
  }

  /** So it names the numbers 0 to 99 differently, */
  lemma LtostrNamesHundred(v: nat, w: nat)
    requires v < 100 && w < 100 && LtoText(v) == LtoText(w)
    ensures v == w
  {
    hide Digits, LtoText;
    LtostrIsDecimalIff(v);
    LtostrIsDecimalIff(w);
    DigitsDetermine(v, w);
  }

  /** but not 0 and 100: a hundred customers is the most the air reservation can name. */
  lemma LtostrConfusesHundred()
    ensures LtoText(100) == LtoText(0)
  {
    hide HexChar;
    assert 100 / 10 % 10 == 0 && 100 % 10 == 0;
    assert LtoText(100) == "" + [HexChar(0)];
  }

  // ---------------------------------------------------------------- ltostr in its buffer

  /** The text ltostr leaves, for any number but the smallest, whose negation overflows. */
  function LtoSigned(value: int): string {
    if value < 0 then "-" + LtoText(-value) else LtoText(value)
  }

  /** What the do-while loop has still to write. */
  function LtoRest(v: nat): string {
    if v % 10 != 0 then LtoText(v) else ""
  }

  // the do-while loop of ltostr: the digits, last one first, from place `k` on
  method PutDigits(v: nat, str: array<char>, k: nat) returns (s: nat)
    requires k + |LtoText(v)| <= str.Length
    modifies str
    ensures s == k + |LtoText(v)| && str[..k] == old(str[..k])
    ensures str[k..s] == Reverse(LtoText(v))
  {
    var value := v;
    LtoTextLength(v);
    str[k] := HexChar(value % 10);
    s, value := k + 1, value / 10;
    assert str[k..s] == [HexChar(v % 10)];
    OneDigitMore(value, v, []);
    while value % 10 != 0
      invariant k < s <= str.Length && str[..k] == old(str[..k])
      invariant LtoText(v) == LtoRest(value) + Reverse(str[k..s])
      decreases value
    {
      ghost var done := str[k..s];
      LtoTextLength(value);
      str[s] := HexChar(value % 10);
      s := s + 1;
      assert str[k..s] == done + [HexChar(value % 10)];
      OneDigitMore(value / 10, value, done);
      value := value / 10;
    }
    assert Reverse(Reverse(str[k..s])) == str[k..s];
  }

  lemma OneDigitMore(v: nat, w: nat, done: string)
    requires v == w / 10
    ensures LtoText(w) + Reverse(done) == LtoRest(v) + Reverse(done + [HexChar(w % 10)])
  {
    assert Reverse(done + [HexChar(w % 10)]) == [HexChar(w % 10)] + Reverse(done);
    assert LtoText(w) == LtoRest(v) + [HexChar(w % 10)];
  }

  /** Where the reversal of the places `lo` up to `s`, once it has come to `start`, has fetched place `i` from. */
  function Source(lo: nat, start: nat, s: nat, i: nat): (j: nat)
    requires lo <= s
    ensures i < lo || s <= i ==> j == i
    ensures lo <= i < s ==> lo <= j < s
  {
    if lo <= i < s && (i < start || lo + s - 1 - i < start) then lo + s - 1 - i else i
  }

  /** The reversal has swapped the places below `start` with those above their mirror images. */
  ghost predicate HalfReversed(was: string, now: string, lo: nat, start: nat, s: nat)
    requires lo <= s <= |was| == |now|
  {
    forall i :: 0 <= i < |was| ==> now[i] == was[Source(lo, start, s, i)]
  }

  // the last loop of ltostr
  method ReverseRange(str: array<char>, lo: nat, s: nat)
    requires lo <= s <= str.Length
    modifies str
    ensures str[..lo] == old(str[..lo]) && str[lo..s] == Reverse(old(str[lo..s])) && str[s..] == old(str[s..])
  {
    hide HalfReversed;
    ghost var was := str[..];
    var start, end := lo, s - 1;
    assert HalfReversed(was, str[..], lo, start, s) by { NothingSwapped(was, lo, s); }
    while start < end
      invariant lo <= start && start + end == lo + s - 1
      invariant HalfReversed(was, str[..], lo, start, s)
      decreases end - start
    {
      OneMoreSwapped(was, str[..], lo, start, s);
      ghost var before := str[..];
      var tmp := str[start];
      str[start] := str[end];
      str[end] := tmp;
      assert str[..] == before[start := before[end]][end := before[start]];
      start := start + 1;
      end := end - 1;
    }
    WholeReversed(was, str[..], lo, start, s);
  }

  lemma WholeReversed(was: string, now: string, lo: nat, start: nat, s: nat)
    requires lo <= s <= |was| == |now| && HalfReversed(was, now, lo, start, s) && lo <= start && 2 * start >= lo + s - 1
    ensures now[..lo] == was[..lo] && now[lo..s] == Reverse(was[lo..s]) && now[s..] == was[s..]
  {
    forall i | 0 <= i < s - lo ensures now[lo..s][i] == Reverse(was[lo..s])[i] {
      assert now[lo + i] == was[lo + s - 1 - (lo + i)];
    }
  }

  lemma NothingSwapped(was: string, lo: nat, s: nat)
    requires lo <= s <= |was|
    ensures HalfReversed(was, was, lo, lo, s)
  {
  }

  lemma OneMoreSwapped(was: string, now: string, lo: nat, start: nat, s: nat)
    requires lo <= s <= |was| == |now| && HalfReversed(was, now, lo, start, s) && lo <= start < lo + s - 1 - start
    ensures var end := lo + s - 1 - start;
      HalfReversed(was, now[start := now[end]][end := now[start]], lo, start + 1, s)
  {
  }

  // ltostr, into a buffer that has room for the text and the terminating zero
  method Ltostr(value: int, str: array<char>) returns (s: nat)
    requires -WORD / 2 < value < WORD / 2 && |LtoSigned(value)| < str.Length
    modifies str
    ensures s == |LtoSigned(value)| && str[..s] == LtoSigned(value) && str[s] == 0 as char
  {
    hide LtoText, Reverse;
    if value < 0 {
      s := PutNegative(-value, str);
    } else {
      s := PutMagnitude(value, str, 0);
    }
    ghost var text := str[..s];
    str[s] := 0 as char;
    assert str[..s] == text;
  }

  // the sign and the digits
  method PutNegative(v: nat, str: array<char>) returns (s: nat)
    requires 1 + |LtoText(v)| < str.Length
    modifies str
    ensures s == 1 + |LtoText(v)| && str[..s] == "-" + LtoText(v)
  {
    hide LtoText;
    str[0] := '-';
    s := PutMagnitude(v, str, 1);
    assert str[..s] == str[..1] + str[1..s];
  }

  // the digits in order, from place `k` on
  method PutMagnitude(v: nat, str: array<char>, k: nat) returns (s: nat)
    requires k + |LtoText(v)| < str.Length
    modifies str
    ensures s == k + |LtoText(v)| && str[..k] == old(str[..k]) && str[k..s] == LtoText(v)
  {
    hide LtoText, Reverse;
    s := PutDigits(v, str, k);
    ReverseRange(str, k, s);
    ReverseTwice(LtoText(v));
  }

  lemma ReverseTwice(s: string)
    ensures Reverse(Reverse(s)) == s
  {
  }
}
