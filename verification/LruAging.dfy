/**
 LRU aging (update_WS_time_stamps of kern/cpu/sched.c): at each clock tick a page's stamp moves two bits to the
 right and gets its top bit if the page was used.  The theorems: a stamp is the base-4 encoding of the page's last
 16 used bits, so comparing stamps compares those histories, most recent tick first.
 */
module LruAging {

  const TOP: nat := 0x8000_0000
  const DIGITS: nat := 16

  const WORD: nat := 0x1_0000_0000

  /** What one tick does to a stamp: the shift to the right, and the top bit for a page that was used. */
  function Aged(stamp: nat, used: bool): nat {
    stamp / 4 + if used then TOP else 0
  }

  /** Bit `i` of a number. */
  function BitAt(x: nat, i: nat): bool {
    if i == 0 then x % 2 == 1 else BitAt(x / 2, i - 1)
  }

  function Pow2(n: nat): (r: nat)
    ensures r > 0
  {
    if n == 0 then 1 else 2 * Pow2(n - 1)
  }

  /** Adding a power of two to a smaller number sets that bit and no lower one. */
  lemma {:induction false} HighBit(x: nat, n: nat, used: bool, i: nat)
    requires x < Pow2(n) && i <= n
    ensures BitAt(x + if used then Pow2(n) else 0, i) == if i == n then used else BitAt(x, i)
  {
    if i > 0 {
      assert (x + if used then Pow2(n) else 0) / 2 == x / 2 + if used then Pow2(n - 1) else 0;
      HighBit(x / 2, n - 1, used, i - 1);
    }
  }

  /** The shift and the disjunction of the source: bit `i` of the new stamp is bit `i + 2` of the old one, but for the
      top bit, which says whether the page was used; and the stamp stays a 32-bit word. */
  lemma AgedIsShiftAndOr(stamp: nat, used: bool, i: nat)
    requires stamp < WORD && i < 32
    ensures Aged(stamp, used) < WORD
    ensures BitAt(Aged(stamp, used), i) == if i == 31 then used else BitAt(stamp, i + 2)
  {
    assert Pow2(8) == 0x100 && Pow2(16) == 0x1_0000 && Pow2(24) == 0x100_0000 && Pow2(31) == TOP;
    HighBit(stamp / 4, 31, used, i);
    assert BitAt(stamp, i + 2) == BitAt(stamp / 2 / 2, i);
    assert stamp / 2 / 2 == stamp / 4;
  }

  /** The stamp after a history of used bits, oldest first; loading a page counts as its first use. */
  function Stamp(history: seq<bool>): nat {
    if history == [] then 0 else Aged(Stamp(history[..|history| - 1]), history[|history| - 1])
  }

  predicate Latest(history: seq<bool>) { history != [] && history[|history| - 1] }

  function Earlier(history: seq<bool>): (h: seq<bool>)
    ensures history != [] ==> |h| < |history|
  {
    if history == [] then [] else history[..|history| - 1]
  }

  function Pow4(n: nat): (r: nat)
    ensures r > 0
  {
    if n == 0 then 1 else 4 * Pow4(n - 1)
  }

  /** The last `n` bits as a base-4 numeral, the most recent first; a used tick is the digit 2. */
  function Encoding(history: seq<bool>, n: nat): nat
    decreases n
  {
    if n == 0 then 0
    else (if Latest(history) then 2 * Pow4(n - 1) else 0) + Encoding(Earlier(history), n - 1)
  }

  lemma {:induction false} EncodingFits(history: seq<bool>, n: nat)
    ensures Encoding(history, n) < Pow4(n)
    decreases n
  {
    if n > 0 {
      EncodingFits(Earlier(history), n - 1);
    }
  }

  /** Shifting two bits to the right drops exactly the oldest digit. */
  lemma {:induction false} ShiftDropsADigit(history: seq<bool>, n: nat)
    ensures Encoding(history, n + 1) / 4 == Encoding(history, n)
    decreases n
  {
    if n == 0 {
      assert Encoding(history, 1) <= 2;
    } else {
      ShiftDropsADigit(Earlier(history), n - 1);
      var d, e := if Latest(history) then 2 * Pow4(n - 1) else 0, Encoding(Earlier(history), n);
      assert Encoding(history, n + 1) == 4 * d + e;
      assert (4 * d + e) / 4 == d + e / 4;
    }
  }

  lemma TopIsADigit()
    ensures 2 * Pow4(DIGITS - 1) == TOP
  {
    assert Pow4(3) == 64;
    assert Pow4(6) == 4 * (4 * (4 * Pow4(3)));
    assert Pow4(9) == 4 * (4 * (4 * Pow4(6)));
    assert Pow4(12) == 4 * (4 * (4 * Pow4(9)));
    assert Pow4(15) == 4 * (4 * (4 * Pow4(12)));
  }

  lemma {:induction false} NothingEncodesNothing(n: nat)
    ensures Encoding([], n) == 0
  {
    if n > 0 {
      NothingEncodesNothing(n - 1);
    }
  }

  /** After any history a stamp is the base-4 encoding of the last 16 used bits. */
  lemma {:induction false} StampEncodesHistory(history: seq<bool>)
    ensures Stamp(history) == Encoding(history, DIGITS)
  {
    if history == [] {
      NothingEncodesNothing(DIGITS);
    } else {
      StampEncodesHistory(Earlier(history));
      ShiftDropsADigit(Earlier(history), DIGITS - 1);
      TopIsADigit();
    }
  }

  /** Lexicographic comparison of the last `n` bits, the most recent first; before its history a page was not used. */
  predicate Before(a: seq<bool>, b: seq<bool>, n: nat)
    decreases n
  {
    n > 0 && (if Latest(a) == Latest(b) then Before(Earlier(a), Earlier(b), n - 1) else Latest(b))
  }

  lemma {:induction false} EncodingOrders(a: seq<bool>, b: seq<bool>, n: nat)
    ensures Encoding(a, n) < Encoding(b, n) <==> Before(a, b, n)
    decreases n
  {
    if n > 0 {
      EncodingOrders(Earlier(a), Earlier(b), n - 1);
      EncodingFits(Earlier(a), n - 1);
      EncodingFits(Earlier(b), n - 1);
    }
  }

  /** Comparing two stamps is comparing the two pages' last 16 ticks, the most recent first. */
  lemma StampsCompareHistories(a: seq<bool>, b: seq<bool>)
    ensures Stamp(a) < Stamp(b) <==> Before(a, b, DIGITS)
    ensures Stamp(a) < 0x1_0000_0000
  {
    StampEncodesHistory(a);
    StampEncodesHistory(b);
    EncodingOrders(a, b, DIGITS);
    EncodingFits(a, DIGITS);
    TopIsADigit();
    assert Pow4(DIGITS) == 4 * Pow4(DIGITS - 1);
  }
}
