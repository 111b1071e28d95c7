/**
 The 64-bit unsigned words under lib/BitSet.h. A word is a number below 2^64; the bitwise
 operators are defined on binary digits, and shifts are the truncating machine shifts.
 */
module BitWords {

  function Pow2(k: nat): (p: nat)
    ensures p >= 1
  {
    if k == 0 then 1 else 2 * Pow2(k - 1)
  }

  const WORD_LIMIT: nat := 0x1_0000_0000_0000_0000
  const WORD_MASK: Word := 0xffff_ffff_ffff_ffff

  type Word = w: nat | w < WORD_LIMIT

  lemma {:induction false} WordLimitIsPow2()
    ensures Pow2(64) == WORD_LIMIT
  {
    EightMore(0);
    EightMore(8);
    EightMore(16);
    EightMore(24);
    EightMore(32);
    EightMore(40);
    EightMore(48);
    EightMore(56);
  }

  lemma {:induction false} EightMore(k: nat)
    ensures Pow2(k + 8) == 0x100 * Pow2(k)
  {
    FourMore(k);
    FourMore(k + 4);
  }

  lemma {:induction false} FourMore(k: nat)
    ensures Pow2(k + 4) == 0x10 * Pow2(k)
  {
    assert Pow2(k + 2) == 4 * Pow2(k);
  }

  /** Binary digit `j` of a number. */
  predicate Bit(w: nat, j: nat) {
    if j == 0 then w % 2 == 1 else Bit(w / 2, j - 1)
  }

  function Digit(b: bool): (d: nat)
    ensures d < 2 && (d == 1 <==> b)
  {
    if b then 1 else 0
  }

  function Or(a: nat, b: nat): nat {
    if a == 0 then b else 2 * Or(a / 2, b / 2) + Digit(a % 2 == 1 || b % 2 == 1)
  }

  function WordOr(a: Word, b: Word): Word {
    WordLimitIsPow2();
    OrBelow(a, b, 64);
    Or(a, b)
  }

  function And(a: nat, b: nat): (r: nat)
    ensures r <= a
  {
    if a == 0 then 0 else 2 * And(a / 2, b / 2) + Digit(a % 2 == 1 && b % 2 == 1)
  }

  function Not(a: Word): Word {
    WORD_MASK - a
  }

  function ShiftLeft(w: Word, n: nat): Word {
    if n == 0 then w else (2 * ShiftLeft(w, n - 1)) % WORD_LIMIT
  }

  function ShiftRight(w: Word, n: nat): Word {
    if n == 0 then w else ShiftRight(w, n - 1) / 2
  }

  lemma {:induction false} BitOfZero(j: nat)
    ensures !Bit(0, j)
  {
    if j > 0 { BitOfZero(j - 1); }
  }

  lemma {:induction false} BitOfOr(a: nat, b: nat, j: nat)
    ensures Bit(Or(a, b), j) <==> Bit(a, j) || Bit(b, j)
  {
    if a == 0 {
      BitOfZero(j);
    } else if j > 0 {
      BitOfOr(a / 2, b / 2, j - 1);
    }
  }

  lemma {:induction false} BitOfAnd(a: nat, b: nat, j: nat)
    ensures Bit(And(a, b), j) <==> Bit(a, j) && Bit(b, j)
  {
    if a == 0 {
      BitOfZero(j);
    } else if j > 0 {
      BitOfAnd(a / 2, b / 2, j - 1);
    }
  }

  lemma {:induction false} OrBelow(a: nat, b: nat, k: nat)
    requires a < Pow2(k) && b < Pow2(k)
    ensures Or(a, b) < Pow2(k)
  {
    if a > 0 && k > 0 { OrBelow(a / 2, b / 2, k - 1); }
  }

  lemma {:induction false} BitOfComplement(a: nat, j: nat, k: nat)
    requires a < Pow2(k) && j < k
    ensures Bit(Pow2(k) - 1 - a, j) <==> !Bit(a, j)
  {
    if j > 0 {
      BitOfComplement(a / 2, j - 1, k - 1);
      assert (Pow2(k) - 1 - a) / 2 == Pow2(k - 1) - 1 - a / 2;
    }
  }

  lemma {:induction false} BitOfNot(a: Word, j: nat)
    requires j < 64
    ensures Bit(Not(a), j) <==> !Bit(a, j)
  {
    WordLimitIsPow2();
    BitOfComplement(a, j, 64);
  }

  lemma {:induction false} BitOfMask(j: nat)
    requires j < 64
    ensures Bit(WORD_MASK, j)
  {
    BitOfZero(j);
    BitOfNot(0, j);
  }

  /** Reducing modulo 2^k keeps the low k digits. */
  lemma {:induction false} BitOfMod(w: nat, j: nat, k: nat)
    requires j < k
    ensures Bit(w % Pow2(k), j) <==> Bit(w, j)
  {
    ModHalf(w, k - 1);
    if j > 0 { BitOfMod(w / 2, j - 1, k - 1); }
  }

  lemma {:induction false} ModHalf(w: nat, k: nat)
    ensures (w % Pow2(k + 1)) / 2 == (w / 2) % Pow2(k)
    ensures (w % Pow2(k + 1)) % 2 == w % 2
  {
    var p, q := Pow2(k), w / Pow2(k + 1);
    var r := w % Pow2(k + 1);
    assert w == 2 * (q * p) + r;
    assert w / 2 == q * p + r / 2;
    RemainderUnique(w / 2, p, q, r / 2);
  }

  lemma {:induction false} RemainderUnique(n: int, width: nat, q: int, r: nat)
    requires r < width && n == q * width + r
    ensures n % width == r
  {
    var q', r' := n / width, n % width;
    assert (q' - q) * width == r - r';
    assert q' - q >= 1 ==> (q' - q) * width >= width;
    assert q - q' >= 1 ==> (q - q') * width >= width;
  }

  lemma {:induction false} BitOfShiftLeft(w: Word, n: nat, j: nat)
    requires j < 64
    ensures Bit(ShiftLeft(w, n), j) <==> n <= j && Bit(w, j - n)
  {
    if n > 0 {
      var v: nat := ShiftLeft(w, n - 1);
      WordLimitIsPow2();
      BitOfMod(2 * v, j, 64);
      if j > 0 { BitOfShiftLeft(w, n - 1, j - 1); }
    }
  }

  lemma {:induction false} BitOfShiftRight(w: Word, n: nat, j: nat)
    ensures Bit(ShiftRight(w, n), j) <==> Bit(w, j + n)
  {
    if n > 0 { BitOfShiftRight(w, n - 1, j + 1); }
  }

  lemma {:induction false} BitOfOne(j: nat)
    ensures Bit(1, j) <==> j == 0
  {
    if j > 0 { BitOfZero(j - 1); }
  }

  /** Converts any shift count into [0, width) by adding or subtracting the width. */
  function SafeShiftCount(width: nat, n: int): (r: nat)
    requires width > 0
    ensures r == n % width
    decreases if n < 0 then width - n else n
  {
    if n < 0 then
      RemainderUnique(n + width, width, n / width + 1, n % width);
      SafeShiftCount(width, n + width)
    else if n >= width then
      RemainderUnique(n, width, (n - width) / width + 1, (n - width) % width);
      SafeShiftCount(width, n - width)
    else
      RemainderUnique(n, width, 0, n);
      n
  }

  lemma {:induction false} ShiftRightTwice(x: Word, s: nat, k: nat)
    ensures ShiftRight(x, s + k) == ShiftRight(ShiftRight(x, s), k)
  {
    if k > 0 { ShiftRightTwice(x, s, k - 1); }
  }

  /** Right shifts are divisions by the powers of two that the halving search uses. */
  lemma {:induction false} ShiftRightDivides(x: Word)
    ensures ShiftRight(x, 1) == x / 2 && ShiftRight(x, 2) == x / 4
    ensures ShiftRight(x, 4) == x / 0x10 && ShiftRight(x, 8) == x / 0x100
    ensures ShiftRight(x, 16) == x / 0x1_0000 && ShiftRight(x, 32) == x / 0x1_0000_0000
  {
    ShiftRightByTwo(x);
    ShiftRightByFour(x);
    var y: Word := x / 0x100;
    ShiftRightByFour(y);
    ShiftRightTwice(x, 8, 8);
    var z: Word := x / 0x1_0000;
    ShiftRightByFour(z);
    ShiftRightByFour(z / 0x100);
    ShiftRightTwice(z, 8, 8);
    ShiftRightTwice(x, 16, 16);
  }

  lemma {:induction false} ShiftRightByTwo(x: Word)
    ensures ShiftRight(x, 1) == x / 2 && ShiftRight(x, 2) == x / 4
  {
    assert ShiftRight(x, 0) == x;
    assert ShiftRight(x, 1) == x / 2;
  }

  lemma {:induction false} ShiftRightByFour(x: Word)
    ensures ShiftRight(x, 4) == x / 0x10 && ShiftRight(x, 8) == x / 0x100
  {
    ShiftRightByTwo(x);
    ShiftRightByTwo(x / 4);
    ShiftRightTwice(x, 2, 2);
    ShiftRightByTwo(x / 0x10);
    ShiftRightTwice(x, 4, 2);
    ShiftRightByTwo(x / 0x40);
    ShiftRightTwice(x, 6, 2);
  }

  /** Halving search for the highest set bit of a 32-bit number. */
  method LeadingZeros32(x: Word) returns (n: nat)
    requires x < 0x1_0000_0000
    ensures x == 0 ==> n == 32
    ensures x != 0 ==> n < 32 && ShiftRight(x, 31 - n) == 1
  {
    if x == 0 {
      return 32;
    }
    var i: Word;
    n, i := Narrow(x, 31, x, 16, 0x1_0000);
    n, i := Narrow(x, n, i, 8, 0x100);
    n, i := Narrow(x, n, i, 4, 0x10);
    n, i := Narrow(x, n, i, 2, 4);
    Stage(x, 31 - n, i, 1, 2);
    n := n - i / 2;
  }

  /** One stage of the search: drop the `k` lowest digits of the window `i` if a digit above them is set. */
  method Narrow(ghost x: Word, n: nat, i: Word, k: nat, d: nat) returns (n': nat, i': Word)
    requires (k, d) in {(2, 4), (4, 0x10), (8, 0x100), (16, 0x1_0000)}
    requires 2 * k - 1 <= n <= 31 && 0 < i < d * d && ShiftRight(x, 31 - n) == i
    ensures n - k <= n' <= n && 0 < i' < d && ShiftRight(x, 31 - n') == i'
  {
    n', i' := n, i;
    if i >= d {
      Stage(x, 31 - n, i, k, d);
      n', i' := n - k, i / d;
    }
  }

  lemma {:induction false} Stage(x: Word, s: nat, i: Word, k: nat, d: nat)
    requires ShiftRight(x, s) == i
    requires (k, d) in {(1, 2), (2, 4), (4, 0x10), (8, 0x100), (16, 0x1_0000)}
    ensures ShiftRight(x, s + k) == i / d
  {
    ShiftRightDivides(i);
    ShiftRightTwice(x, s, k);
  }

  /** The number of digits above the highest set bit of a word. */
  method LeadingZeros(w: Word) returns (n: nat)
    ensures w == 0 ==> n == 64
    ensures w != 0 ==> n < 64 && Bit(w, 63 - n) && forall j | 64 - n <= j :: !Bit(w, j)
  {
    var x: Word := w / 0x1_0000_0000;
    if x == 0 {
      assert w % 0x1_0000_0000 == w;
      n := LeadingZeros32(w % 0x1_0000_0000);
      n := 32 + n;
    } else {
      n := LeadingZeros32(x);
      ShiftRightDivides(w);
      ShiftRightTwice(w, 32, 31 - n);
    }
    if w != 0 { HighestBit(w, 63 - n); }
  }

  lemma {:induction false} HighestBit(w: Word, s: nat)
    requires ShiftRight(w, s) == 1
    ensures Bit(w, s)
    ensures forall j | s < j :: !Bit(w, j)
  {
    BitOfShiftRight(w, s, 0);
    forall j | s < j
      ensures !Bit(w, j)
    {
      BitOfShiftRight(w, s, j - s);
      BitOfOne(j - s);
    }
  }

  lemma {:induction false} SomeBit(w: nat, k: nat) returns (j: nat)
    requires 0 < w < Pow2(k)
    ensures j < k && Bit(w, j)
  {
    if w % 2 == 1 {
      j := 0;
    } else {
      j := SomeBit(w / 2, k - 1);
      j := j + 1;
    }
  }

  lemma {:induction false} NoBitAbove(w: nat, k: nat, j: nat)
    requires w < Pow2(k) && k <= j
    ensures !Bit(w, j)
  {
    if k == 0 {
      BitOfZero(j);
    } else {
      NoBitAbove(w / 2, k - 1, j - 1);
    }
  }

  /** Masking with a single bit tests that bit. */
  lemma {:induction false} SingleBitTest(w: Word, j: nat)
    requires j < 64
    ensures And(w, ShiftLeft(1, j)) != 0 <==> Bit(w, j)
    ensures forall t | t < 64 :: Bit(ShiftLeft(1, j), t) <==> t == j
  {
    var mask := ShiftLeft(1, j);
    forall t: nat | t < 64
      ensures Bit(mask, t) <==> t == j
    {
      BitOfShiftLeft(1, j, t);
      if j <= t { BitOfOne(t - j); }
    }
    BitOfAnd(w, mask, j);
    BitOfZero(j);
    if And(w, mask) != 0 {
      WordLimitIsPow2();
      var t := SomeBit(And(w, mask), 64);
      BitOfAnd(w, mask, t);
    }
  }
}
