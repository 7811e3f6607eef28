/**
 What the texts that printnum and strtol exchange mean, said without their loops: digits are what the alphabet shows,
 a number is the sum of its digits' worth, and a text is blanks, a sign, a prefix that names the base, digits and a
 rest.  Every text splits so, and strtol reads it as such; printnum emits the shortest numeral in small letters.
 */
module Numerals {
  import opened NumberText

  /** The character of digit `d` in small letters. */
  predicate ShowsSmall(c: char, d: nat) {
    if d < 10 then c as int == '0' as int + d else d < 36 && c as int == 'a' as int + d - 10
  }

  predicate Shows(c: char, d: nat) {
    ShowsSmall(c, d) || (10 <= d < 36 && c as int == 'A' as int + d - 10)
  }

  /** Text `t` spells the digits `ds` of base `b`, in small or large letters. */
  ghost predicate Spells(t: string, ds: seq<nat>, b: nat) {
    |t| == |ds| && forall k :: 0 <= k < |t| ==> ds[k] < b && Shows(t[k], ds[k])
  }

  function Number(ds: seq<nat>, b: nat): nat {
    if ds == [] then 0 else Number(ds[..|ds| - 1], b) * b + ds[|ds| - 1]
  }

  /** Given `base`, the prefix says that the digits are of base `b`. */
  ghost predicate Announces(prefix: string, base: nat, b: nat) {
    || (prefix == "0x" && (base == 0 || base == 16) && b == 16)
    || (prefix == "0" && base == 0 && b == 8)
    || (prefix == "" && base == 0 && b == 10)
    || (prefix == "" && base != 0 && b == base)
  }

  /** No digit of base `b` comes next. */
  ghost predicate Ends(rest: string, b: nat) {
    rest == "" || forall d: nat :: d < b ==> !Shows(rest[0], d)
  }

  /** Nothing is taken for what it is not: the rest for more blanks or a sign, decimal for octal, octal for hex. */
  ghost predicate Clear(sign: string, prefix: string, t: string, rest: string, base: nat) {
    && (sign + prefix + t == "" && rest != "" ==> rest[0] !in {' ', '\t', '+', '-'})
    && (prefix == "" && base == 0 && t != "" ==> t[0] != '0')
    && ((base == 0 || base == 16) && prefix + t == "0" && rest != "" ==> rest[0] != 'x')
  }

  /** A text in its five parts, read with `base`; the digits are `ds`, of base `b`. */
  datatype Parts = Parts(blanks: string, sign: string, prefix: string, t: string, rest: string, b: nat, ds: seq<nat>) {
    function Text(): string { blanks + sign + prefix + t + rest }

    ghost predicate Valid(base: nat) {
      && (forall k :: 0 <= k < |blanks| ==> blanks[k] in {' ', '\t'})
      && sign in {"", "+", "-"}
      && Announces(prefix, base, b) && Spells(t, ds, b) && Ends(rest, b)
      && Clear(sign, prefix, t, rest, base)
    }

    function Value(): int { if sign == "-" then 0 - Number(ds, b) else Number(ds, b) }
  }

  /** The 32-bit `v` stands for `n`. */
  ghost predicate IsLong(v: int, n: int) {
    -0x8000_0000 <= v < 0x8000_0000 && (v - n) % 0x1_0000_0000 == 0
  }

  // ---------------------------------------------------------------- digits

  lemma ShownDigit(c: char, d: nat)
    requires Shows(c, d)
    ensures DigitOf(c) == d
  {
  }

  lemma DigitShown(c: char)
    requires DigitOf(c) < 36
    ensures Shows(c, DigitOf(c))
  {
  }

  lemma DigitIff(c: char, b: nat)
    ensures IsDigit(c, b) <==> exists d: nat :: d < b && Shows(c, d)
  {
    hide Shows, DigitOf;
    if IsDigit(c, b) {
      DigitShown(c);
    }
    forall d: nat | d < b && Shows(c, d) ensures IsDigit(c, b) {
      ShownDigit(c, d);
      assert d < 36 by { AtMost36(c, d); }
    }
  }

  lemma AtMost36(c: char, d: nat)
    requires Shows(c, d)
    ensures d < 36
  {
  }

  lemma PlainFirst(c: char, d: nat)
    requires Shows(c, d)
    ensures !IsBlank(c) && c != '+' && c != '-' && (c == '0' <==> d == 0) && (c == 'x' ==> d == 33)
  {
  }

  lemma WrapIsLong(v: int)
    ensures IsLong(Wrap32(v), v)
  {
    WrapIs(v);
    assert (Wrap32(v) - v) % WORD == (-Turns(v) * WORD) % WORD == 0;
  }

  // ---------------------------------------------------------------- strtol

  lemma {:induction false} ReadsAll(s: string, i: nat, e: nat, b: nat, ds: seq<nat>, done: seq<nat>)
    requires i <= e <= |s| && Spells(s[i..e], ds, b) && Ends(s[e..], b)
    ensures ReadDigits(s, i, b, Wrap32(Number(done, b))) == (Wrap32(Number(done + ds, b)), e)
    decreases e - i
  {
    hide Wrap32, DigitOf, Shows, IsDigit;
    if i < e {
      assert s[i..e][0] == s[i] && ds[0] < b && Shows(s[i], ds[0]);
      ShownDigit(s[i], ds[0]);
      DigitIff(s[i], b);
      WrapStep(Number(done, b), b, ds[0]);
      assert (done + [ds[0]])[..|done|] == done;
      assert Spells(s[i + 1..e], ds[1..], b) by { SpellsRest(s, i, e, b, ds); }
      ReadsAll(s, i + 1, e, b, ds[1..], done + [ds[0]]);
      assert done + [ds[0]] + ds[1..] == done + ds;
    } else {
      assert done + ds == done;
      if e < |s| {
        assert s[e..][0] == s[e];
        DigitIff(s[e], b);
      }
    }
  }

  lemma SpellsRest(s: string, i: nat, e: nat, b: nat, ds: seq<nat>)
    requires i < e <= |s| && Spells(s[i..e], ds, b)
    ensures Spells(s[i + 1..e], ds[1..], b)
  {
    forall k | 0 <= k < e - i - 1 ensures ds[1..][k] < b && Shows(s[i + 1..e][k], ds[1..][k]) {
      assert s[i + 1..e][k] == s[i..e][k + 1];
    }
  }

  lemma {:induction false} SkipsBlanksTo(s: string, i: nat, j: nat)
    requires i <= j <= |s| && (forall k :: i <= k < j ==> IsBlank(s[k])) && (j < |s| ==> !IsBlank(s[j]))
    ensures SkipBlanks(s, i) == j
    decreases j - i
  {
    if i < j {
      SkipsBlanksTo(s, i + 1, j);
    }
  }

  lemma SignIs(parts: Parts, base: nat)
    requires parts.Valid(base)
    ensures var s, i := parts.Text(), |parts.blanks|;
      i <= |s| && SkipBlanks(s, 0) == i && SkipSign(s, i) == i + |parts.sign|
  {
    hide SkipBlanks, Ends, Announces, Shows, Number;
    var s, i := parts.Text(), |parts.blanks|;
    var more := parts.sign + parts.prefix + parts.t + parts.rest;
    assert s == parts.blanks + more;
    if more != "" {
      assert s[i] == more[0];
      StartsRight(parts, base);
    }
    SkipsBlanksTo(s, 0, i);
  }

  /** What comes after the blanks is a sign if there is one, and no blank. */
  lemma StartsRight(parts: Parts, base: nat)
    requires parts.Valid(base) && parts.sign + parts.prefix + parts.t + parts.rest != ""
    ensures var c := (parts.sign + parts.prefix + parts.t + parts.rest)[0];
      !IsBlank(c) && (parts.sign == "" <==> c != '+' && c != '-')
  {
    hide Ends, Shows, Number;
    if parts.sign == "" && parts.prefix == "" && parts.t != "" {
      PlainFirst(parts.t[0], parts.ds[0]);
    }
  }

  lemma PrefixIs(parts: Parts, base: nat)
    requires parts.Valid(base)
    ensures var s, j := parts.Text(), |parts.blanks + parts.sign|;
      j <= |s| && SkipPrefix(s, j, base) == (j + |parts.prefix|, parts.b)
  {
    hide Shows, Number, SkipPrefix, Ends, Clear, Spells;
    var s, j := parts.Text(), |parts.blanks + parts.sign|;
    var more := parts.prefix + parts.t + parts.rest;
    assert s == parts.blanks + parts.sign + more;
    PrefixOfMore(parts, base);
    SkipsAfter(parts.blanks + parts.sign, more, base);
  }

  /** What comes before a prefix does not matter to it. */
  lemma SkipsAfter(front: string, more: string, base: nat)
    ensures SkipPrefix(front + more, |front|, base) ==
            (|front| + SkipPrefix(more, 0, base).0, SkipPrefix(more, 0, base).1)
  {
    assert forall k :: 0 <= k < |more| ==> (front + more)[|front| + k] == more[k];
  }

  lemma PrefixOfMore(parts: Parts, base: nat)
    requires parts.Valid(base)
    ensures SkipPrefix(parts.prefix + parts.t + parts.rest, 0, base) == (|parts.prefix|, parts.b)
  {
    hide Shows, Number;
    var more := parts.prefix + parts.t + parts.rest;
    if parts.prefix == "0x" {
      assert more[0] == '0' && more[1] == 'x';
    } else if parts.prefix == "0" {
      assert more[0] == '0';
      if parts.t != "" { NotX(parts, 8); }
      assert |more| > 1 ==> more[1] == (parts.t + parts.rest)[0];
    } else {
      NoPrefix(parts, base);
      assert more == parts.t + parts.rest;
    }
  }

  lemma NotX(parts: Parts, b: nat)
    requires |parts.t| == |parts.ds| > 0 && Shows(parts.t[0], parts.ds[0]) && parts.ds[0] < b <= 16
    ensures parts.t[0] != 'x'
  {
  }

  lemma NoPrefix(parts: Parts, base: nat)
    requires parts.Valid(base) && parts.prefix == ""
    ensures var more := parts.t + parts.rest;
      && (base == 0 && more != "" ==> more[0] != '0')
      && (base == 16 && |more| > 1 ==> !(more[0] == '0' && more[1] == 'x'))
  {
    hide Number;
    if parts.t == "" && parts.rest != "" {
      assert Shows('0', 0);
    }
    if |parts.t| > 1 {
      assert Shows(parts.t[1], parts.ds[1]);
    }
  }

  /** strtol reads every text as its parts say: up to the rest, with the value modulo 2^32. */
  lemma StrtolReads(parts: Parts, base: nat)
    requires parts.Valid(base)
    ensures var s := parts.Text();
      && StrtolSpec(s, base).1 == |s| - |parts.rest|
      && IsLong(StrtolSpec(s, base).0, parts.Value())
  {
    hide SkipBlanks, SkipSign, SkipPrefix, ReadDigits, Wrap32, Number, Shows, Announces, Clear, IsLong;
    var s, b := parts.Text(), parts.b;
    var n: int := Number(parts.ds, b);
    var i, j := |parts.blanks|, |parts.blanks + parts.sign|;
    var p := j + |parts.prefix|;
    SignIs(parts, base);
    PrefixIs(parts, base);
    assert s[p..p + |parts.t|] == parts.t && s[p + |parts.t|..] == parts.rest;
    assert Wrap32(Number([], b)) == 0 by { NoDigits(b); }
    ReadsAll(s, p, p + |parts.t|, b, parts.ds, []);
    assert [] + parts.ds == parts.ds;
    assert parts.sign == "-" <==> i < j && s[i] == '-';
    WrapIsLong(n);
    WrapNegative(n);
    WrapIsLong(0 - n);
  }

  lemma NoDigits(b: nat)
    ensures Wrap32(Number([], b)) == 0
  {
  }

  // ---------------------------------------------------------------- every text has parts

  lemma {:induction false} DigitsFrom(s: string, b: nat) returns (t: string, rest: string, ds: seq<nat>)
    ensures s == t + rest && Spells(t, ds, b) && Ends(rest, b)
  {
    hide Shows, DigitOf;
    if s != "" && IsDigit(s[0], b) {
      DigitIff(s[0], b);
      var d: nat :| d < b && Shows(s[0], d);
      t, rest, ds := DigitsFrom(s[1..], b);
      t, ds := [s[0]] + t, [d] + ds;
    } else {
      t, rest, ds := "", s, [];
      if s != "" { DigitIff(s[0], b); }
    }
  }

  lemma {:induction false} BlanksFrom(s: string) returns (blanks: string, more: string)
    ensures s == blanks + more && (forall k :: 0 <= k < |blanks| ==> blanks[k] in {' ', '\t'})
    ensures more != "" ==> more[0] !in {' ', '\t'}
  {
    if s != "" && s[0] in {' ', '\t'} {
      blanks, more := BlanksFrom(s[1..]);
      blanks := [s[0]] + blanks;
    } else {
      blanks, more := "", s;
    }
  }

  lemma SignFrom(more: string) returns (sign: string, unsigned: string)
    ensures more == sign + unsigned && sign in {"", "+", "-"}
    ensures sign == "" && more != "" ==> more[0] !in {'+', '-'}
  {
    if more != "" && more[0] in {'+', '-'} {
      sign, unsigned := [more[0]], more[1..];
    } else {
      sign, unsigned := "", more;
    }
  }

  /** So StrtolReads says what strtol makes of any text whatever. */
  lemma EveryTextHasParts(s: string, base: nat) returns (parts: Parts)
    ensures parts.Valid(base) && parts.Text() == s
  {
    hide *;
    var blanks, more := BlanksFrom(s);
    var sign, unsigned := SignFrom(more);
    var prefix, b := PrefixOf(unsigned, base);
    var t, rest, ds := DigitsFrom(unsigned[|prefix|..], b);
    assert unsigned == prefix + (t + rest) by { PrefixCut(prefix, unsigned); }
    parts := Parts(blanks, sign, prefix, t, rest, b, ds);
    Joined(blanks, sign, prefix, t, rest);
    PartsClear(sign, prefix, t, rest, base);
    PartsValid(parts, base);
  }

  lemma PrefixCut(prefix: string, u: string)
    requires prefix <= u
    ensures u == prefix + u[|prefix|..]
  {
  }

  lemma PartsValid(parts: Parts, base: nat)
    requires forall k :: 0 <= k < |parts.blanks| ==> parts.blanks[k] in {' ', '\t'}
    requires parts.sign in {"", "+", "-"} && Announces(parts.prefix, base, parts.b)
    requires Spells(parts.t, parts.ds, parts.b) && Ends(parts.rest, parts.b)
    requires Clear(parts.sign, parts.prefix, parts.t, parts.rest, base)
    ensures parts.Valid(base) && parts.Text() == parts.blanks + parts.sign + parts.prefix + parts.t + parts.rest
  {
  }

  lemma Joined(blanks: string, sign: string, prefix: string, t: string, rest: string)
    ensures blanks + (sign + (prefix + (t + rest))) == blanks + sign + prefix + t + rest
    ensures sign + (prefix + (t + rest)) == sign + prefix + t + rest
    ensures prefix + (t + rest) == prefix + t + rest
  {
  }

  lemma PartsClear(sign: string, prefix: string, t: string, rest: string, base: nat)
    requires var more := sign + prefix + t + rest;
      more != "" ==> more[0] !in {' ', '\t'} && (sign == "" ==> more[0] !in {'+', '-'})
    requires var u := prefix + t + rest;
      && (prefix == "" && base == 0 && u != "" ==> u[0] != '0')
      && (base == 0 || base == 16 ==> ("0x" <= u <==> prefix == "0x"))
    ensures Clear(sign, prefix, t, rest, base)
  {
    var u := prefix + t + rest;
    assert |u| >= 2 && u[0] == '0' && u[1] == 'x' ==> "0x" <= u;
    if sign + prefix + t == "" { assert sign + prefix + t + rest == rest; }
  }

  lemma PrefixOf(u: string, base: nat) returns (prefix: string, b: nat)
    ensures prefix <= u && Announces(prefix, base, b)
    ensures prefix == "" && base == 0 && u != "" ==> u[0] != '0'
    ensures base == 0 || base == 16 ==> ("0x" <= u <==> prefix == "0x")
  {
    assert u != "" && u[0] == '0' ==> "0" <= u;
    if (base == 0 || base == 16) && "0x" <= u {
      prefix, b := "0x", 16;
    } else if base == 0 && "0" <= u {
      prefix, b := "0", 8;
    } else {
      prefix, b := "", if base == 0 then 10 else base;
    }
  }

  // ---------------------------------------------------------------- the numerals of printnum

  /** The digits of `n`, the highest first and not zero unless `n` is. */
  ghost predicate Shortest(ds: seq<nat>, n: nat, b: nat) {
    ds != [] && Number(ds, b) == n && if n == 0 then ds == [0] else ds[0] != 0
  }

  ghost predicate InSmall(t: string, ds: seq<nat>) {
    |t| == |ds| && forall k :: 0 <= k < |t| ==> ShowsSmall(t[k], ds[k])
  }

  /** printnum writes the shortest numeral of the number, in small letters. */
  lemma {:induction false} DigitsSpell(n: nat, b: nat) returns (ds: seq<nat>)
    requires 2 <= b <= 16
    ensures Spells(Digits(n, b), ds, b) && Shortest(ds, n, b)
    ensures InSmall(Digits(n, b), ds)
    decreases n
  {
    hide InSmall, HexChar, Spells, Shortest;
    if n < b {
      ds := [n];
      OneDigit(n, b);
    } else {
      hide Digits;
      var q, d := DigitsSplit(n, b);
      var front := DigitsSpell(q, b);
      ds := front + [d];
      OneMoreDigit(Digits(q, b), front, q, d, b);
    }
  }

  lemma OneDigit(n: nat, b: nat)
    requires n < b <= 16
    ensures Spells([HexChar(n)], [n], b) && Shortest([n], n, b) && InSmall([HexChar(n)], [n])
  {
    hide HexChar;
    SmallDigit(n);
    var none: seq<nat> := [];
    assert [n][..0] == none && Number(none, b) * b == 0;
  }

  lemma OneMoreDigit(t: string, ds: seq<nat>, q: nat, d: nat, b: nat)
    requires Spells(t, ds, b) && Shortest(ds, q, b) && InSmall(t, ds) && d < b <= 16 && q > 0
    ensures Spells(t + [HexChar(d)], ds + [d], b) && InSmall(t + [HexChar(d)], ds + [d])
    ensures Shortest(ds + [d], q * b + d, b)
  {
    hide HexChar, ShowsSmall, Shows;
    SmallShown(HexChar(d), d);
    SmallDigit(d);
    assert (ds + [d])[..|ds|] == ds;
  }

  lemma SmallShown(c: char, d: nat)
    ensures ShowsSmall(c, d) ==> Shows(c, d)
  {
  }

  lemma SmallDigit(d: nat)
    requires d < 16
    ensures ShowsSmall(HexChar(d), d)
  {
  }

  /** The text in large letters. */
  function Upper(t: string): (u: string)
    ensures |u| == |t|
  {
    seq(|t|, i requires 0 <= i < |t| => if 'a' <= t[i] <= 'z' then (t[i] as int - 32) as char else t[i])
  }

  lemma UpperSpells(t: string, ds: seq<nat>, b: nat)
    requires Spells(t, ds, b)
    ensures Spells(Upper(t), ds, b)
  {
    forall k | 0 <= k < |t| ensures Shows(Upper(t)[k], ds[k]) {
      assert Shows(t[k], ds[k]);
    }
  }

  /** What strtol makes of `t`: all of it is the number, the whole 32-bit long. */
  ghost predicate GivesLong(t: string, base: nat, n: int) {
    StrtolSpec(t, base).1 == |t| && IsLong(StrtolSpec(t, base).0, n)
  }

  /** The digits of any number `n`, in small or large letters, after blanks, any sign and the prefix of their base. */
  lemma StrtolReadsPrefixed(n: nat, blanks: string, sign: string, prefix: string, b: nat, base: nat, large: bool)
    requires forall k :: 0 <= k < |blanks| ==> blanks[k] in {' ', '\t'}
    requires sign in {"", "+", "-"} && Announces(prefix, base, b) && 2 <= b <= 16
    ensures var t := if large then Upper(Digits(n, b)) else Digits(n, b);
      GivesLong(blanks + sign + prefix + t, base, if sign == "-" then 0 - n else n)
  {
    hide Spells, Number, StrtolSpec, Digits, IsLong, Upper;
    var ds := DigitsSpell(n, b);
    UpperSpells(Digits(n, b), ds, b);
    var t := if large then Upper(Digits(n, b)) else Digits(n, b);
    var s := blanks + sign + prefix + t;
    assert s + "" == s;
    if prefix == "" && base == 0 && n == 0 {
      OnlyZero(blanks, sign, t, ds);
    } else {
      var parts := Parts(blanks, sign, prefix, t, "", b, ds);
      if n > 0 { FirstNotZero(t, ds, n, b); }
      StrtolReads(parts, base);
    }
  }

  /** With base 0 a lone zero is the octal prefix and no digits. */
  lemma OnlyZero(blanks: string, sign: string, t: string, ds: seq<nat>)
    requires (forall k :: 0 <= k < |blanks| ==> blanks[k] in {' ', '\t'}) && sign in {"", "+", "-"}
    requires Spells(t, ds, 10) && Shortest(ds, 0, 10)
    ensures GivesLong(blanks + sign + "" + t, 0, 0)
  {
    hide StrtolSpec, IsLong;
    assert Shows(t[0], 0);
    var parts := Parts(blanks, sign, "0", "", "", 8, []);
    assert blanks + sign + "" + t == parts.Text();
    StrtolReads(parts, 0);
  }

  lemma FirstNotZero(t: string, ds: seq<nat>, n: nat, b: nat)
    requires Spells(t, ds, b) && Shortest(ds, n, b) && n > 0
    ensures t != "" && t[0] != '0'
  {
    assert Shows(t[0], ds[0]);
  }
}
