/** Signature verification's double-scalar multiplication: the signed sliding windows that recode a scalar
    from the top bit down, and the merged double-and-add loop they drive, in any abelian group. */
module SlidingWindow {
  import opened Guards
  import opened Words

  // ---------- Signed recoding ----------

  /** The value of the signed digits (bit k-1 minus bit k) from position i up. */
  function Recoded(s: seq<u8>, i: nat): int
    requires |s| == 32 && i <= 256
  {
    High(s, i) + ScalarBit(s, i - 1)
  }

  /** Each position contributes the bit below it minus its own. */
  lemma RecodedStep(s: seq<u8>, i: nat)
    requires |s| == 32 && i < 256
    ensures Recoded(s, i) == 2 * Recoded(s, i + 1) + ScalarBit(s, i - 1) - ScalarBit(s, i)
  {
  }

  /** Bits from..from+n-1 as a number. */
  function Bits(s: seq<u8>, from: nat, n: nat): int
    requires |s| == 32 && from + n <= 256
  {
    if n == 0 then 0 else Bits(s, from, n - 1) + ScalarBit(s, from + n - 1) * Pow(2, n - 1)
  }

  /** The signed value of the window of w positions ending at i. */
  function Window(s: seq<u8>, i: nat, w: nat): int
    requires |s| == 32 && i < 256 && 1 <= w <= i + 1
  {
    -ScalarBit(s, i) * Pow(2, w - 1) + Bits(s, i - (w - 1), w - 1) + ScalarBit(s, i - w)
  }

  lemma {:induction false} BitsFront(s: seq<u8>, from: nat, n: nat)
    requires |s| == 32 && from + n + 1 <= 256
    ensures Bits(s, from, n + 1) == ScalarBit(s, from) + 2 * Bits(s, from + 1, n)
  {
    if n == 0 {
      assert Bits(s, from, 1) == Bits(s, from, 0) + ScalarBit(s, from) * Pow(2, 0);
    } else {
      BitsFront(s, from, n - 1);
      FrontArith(ScalarBit(s, from + n), Pow(2, n - 1), Pow(2, n));
    }
  }

  lemma FrontArith(b: int, p: int, p2: int)
    requires p2 == 2 * p
    ensures b * p2 == 2 * (b * p)
  {
  }

  /** Widening a window by one position below it. */
  lemma WindowWiden(s: seq<u8>, i: nat, w: nat)
    requires |s| == 32 && i < 256 && 1 <= w <= i
    ensures Window(s, i, w + 1) == 2 * Window(s, i, w) + ScalarBit(s, i - w - 1) - ScalarBit(s, i - w)
  {
    BitsFront(s, i - w, w - 1);
    WidenArith(ScalarBit(s, i), Pow(2, w - 1), Pow(2, w), Bits(s, i - (w - 1), w - 1), ScalarBit(s, i - w));
  }

  lemma WidenArith(top: int, p: int, p2: int, mid: int, b: int)
    requires p2 == 2 * p
    ensures -top * p2 + (b + 2 * mid) == 2 * (-top * p + mid + b) - b
  {
    assert top * p2 == 2 * (top * p);
  }

  lemma WindowOne(s: seq<u8>, i: nat, w: nat)
    requires |s| == 32 && i < 256 && w == 1
    ensures Window(s, i, w) == ScalarBit(s, i - 1) - ScalarBit(s, i) && Pow(2, w) == 2
  {
    assert Pow(2, 1) == 2 && Pow(2, 0) == 1;
  }

  /** A window moves the recoding down by its width. */
  lemma {:induction false} WindowStep(s: seq<u8>, i: nat, w: nat)
    requires |s| == 32 && i < 256 && 1 <= w <= i + 1
    ensures Recoded(s, i - w + 1) == Recoded(s, i + 1) * Pow(2, w) + Window(s, i, w)
  {
    if w == 1 {
      RecodedStep(s, i);
      WindowOne(s, i, w);
    } else {
      WindowStep(s, i, w - 1);
      WindowNext(s, i, w - 1, Recoded(s, i + 1), Recoded(s, i - w + 2));
    }
  }

  lemma WindowNext(s: seq<u8>, i: nat, w: nat, r: int, prev: int)
    requires |s| == 32 && i < 256 && 1 <= w <= i && prev == Recoded(s, i - w + 1)
    requires prev == r * Pow(2, w) + Window(s, i, w)
    ensures Recoded(s, i - w) == r * Pow(2, w + 1) + Window(s, i, w + 1)
  {
    RecodedStep(s, i - w);
    WindowWiden(s, i, w);
    StepArith(r, Pow(2, w), Pow(2, w + 1), Window(s, i, w), prev,
              Window(s, i, w + 1), Recoded(s, i - w), ScalarBit(s, i - w - 1), ScalarBit(s, i - w));
  }

  lemma StepArith(r: int, p1: int, p: int, v: int, prev: int, v2: int, next: int, c: int, b: int)
    requires p == 2 * p1 && prev == r * p1 + v
    requires v2 == 2 * v + c - b && next == 2 * prev + c - b
    ensures next == r * p + v2
  {
    assert r * p == 2 * (r * p1);
  }

  lemma {:induction false} BitsBound(s: seq<u8>, from: nat, n: nat)
    requires |s| == 32 && from + n <= 256
    ensures 0 <= Bits(s, from, n) < Pow(2, n)
  {
    if n > 0 {
      BitsBound(s, from, n - 1);
      TopArith(ScalarBit(s, from + n - 1), Bits(s, from, n - 1), Pow(2, n - 1));
    }
  }

  lemma TopArith(b: int, mid: int, p: int)
    requires 0 <= b <= 1 && 0 <= mid < p
    ensures b * p <= b * p + mid < (b + 1) * p
    ensures b == 0 ==> b * p == 0
    ensures b == 1 ==> b * p == p
  {
  }

  /** A window that starts where two neighbouring bits differ is not zero. */
  lemma WindowBound(s: seq<u8>, i: nat, w: nat)
    requires |s| == 32 && i < 256 && 1 <= w <= i + 1
    requires ScalarBit(s, i) != ScalarBit(s, i - 1)
    requires w == 1 ==> i == 0
    ensures Window(s, i, w) != 0 && -Pow(2, w - 1) <= Window(s, i, w) <= Pow(2, w - 1)
  {
    if w == 1 {
      WindowOne(s, i, w);
      PowPos(2, w - 1);
    } else {
      BitsBound(s, i - (w - 1), w - 2);
      BoundArith(ScalarBit(s, i), ScalarBit(s, i - 1), ScalarBit(s, i - w), Pow(2, w - 2), Pow(2, w - 1),
        Bits(s, i - (w - 1), w - 2),
                 Bits(s, i - (w - 1), w - 1), Window(s, i, w));
    }
  }

  lemma BoundArith(top: int, b: int, c: int, p: int, p2: int, low: int, mid: int, v: int)
    requires 0 <= top <= 1 && 0 <= b <= 1 && 0 <= c <= 1 && top != b
    requires p2 == 2 * p && 0 <= low < p && mid == low + b * p && v == -top * p2 + mid + c
    ensures v != 0 && -p2 <= v <= p2
  {
    assert top == 0 ==> b * p == p && top * p2 == 0;
    assert top == 1 ==> b * p == 0 && top * p2 == p2;
  }

  // ---------- One digit of a window ----------

  /** The lowest set bit of v, as v & -v gives it. */
  function LowestBit(v: int): (r: int)
    requires v != 0
    ensures r > 0
    decreases if v < 0 then -v else v
  {
    if v % 2 != 0 then 1 else 2 * LowestBit(v / 2)
  }

  /** The base-two logarithm of a power of two below 256, from the three masks 0xAA, 0xCC and 0xF0. */
  function MaskLog(lsb: int): nat {
    (if lsb in {2, 8, 32, 128} then 1 else 0) + (if lsb in {4, 8, 64, 128} then 2 else 0)
    + (if lsb in {16, 32, 64, 128} then 4 else 0)
  }

  /** v without its trailing zeros. */
  function OddPart(v: int): (r: int)
    requires v != 0
    ensures r % 2 == 1
    decreases if v < 0 then -v else v
  {
    if v % 2 != 0 then v else OddPart(v / 2)
  }

  lemma {:induction false} LowestBitSplits(v: int)
    requires v != 0
    ensures v == OddPart(v) * LowestBit(v)
    decreases if v < 0 then -v else v
  {
    if v % 2 == 0 {
      LowestBitSplits(v / 2);
      SplitArith(OddPart(v), LowestBit(v / 2), LowestBit(v));
    }
  }

  lemma SplitArith(o: int, l: int, l2: int)
    requires l2 == 2 * l
    ensures o * l2 == 2 * (o * l)
  {
  }

  lemma {:induction false} LowestBitPower(v: int, n: nat)
    requires v != 0 && -Pow(2, n) <= v <= Pow(2, n)
    ensures exists k :: 0 <= k <= n && LowestBit(v) == Pow(2, k)
    decreases n
  {
    if v % 2 != 0 {
      assert LowestBit(v) == Pow(2, 0);
    } else {
      assert n > 0 by { assert Pow(2, 0) == 1; }
      LowestBitPower(v / 2, n - 1);
      var k :| 0 <= k <= n - 1 && LowestBit(v / 2) == Pow(2, k);
      assert LowestBit(v) == Pow(2, k + 1);
    }
  }

  lemma MaskLogPower(k: nat)
    requires k <= 7
    ensures MaskLog(Pow(2, k)) == k
  {
    assert Pow(2, 0) == 1 && Pow(2, 1) == 2 && Pow(2, 2) == 4 && Pow(2, 3) == 8;
    assert Pow(2, 4) == 16 && Pow(2, 5) == 32 && Pow(2, 6) == 64 && Pow(2, 7) == 128;
    assert k == 0 || k == 1 || k == 2 || k == 3 || k == 4 || k == 5 || k == 6 || k == 7;
  }

  /** The shift s and the digit v >> s of a non-zero window value. */
  lemma DigitOf(v: int, w: nat)
    requires v != 0 && 1 <= w <= 8 && -Pow(2, w - 1) <= v <= Pow(2, w - 1)
    ensures var s := MaskLog(LowestBit(v));
            s < w && LowestBit(v) == Pow(2, s) && v == OddPart(v) * Pow(2, s) && v / Pow(2, s) == OddPart(v)
  {
    LowestBitPower(v, w - 1);
    var k :| 0 <= k <= w - 1 && LowestBit(v) == Pow(2, k);
    MaskLogPower(k);
    LowestBitSplits(v);
    DivExact(OddPart(v), Pow(2, k), v);
  }

  lemma DivExact(q: int, d: int, v: int)
    requires d > 0 && v == q * d
    ensures v / d == q
  {
    ModUnique(v, q, d, 0);
  }

  // ---------- The incremental recoder ----------

  /** What the digits from position n+1 up are worth at n+1, given acc for the positions from i up and
      a digit still pending at idx. */
  function Settled(acc: int, i: int, idx: int, digit: int, n: int): int
    requires -1 <= n < i
  {
    if n < idx < i then (acc * Pow(2, i - idx) + digit) * Pow(2, idx - n - 1) else acc * Pow(2, i - n - 1)
  }

  /** Once the pending digit is in, the digits give the recoding of s at n+1. */
  ghost predicate Completes(s: seq<u8>, acc: int, i: int, idx: int, digit: int, n: int)
    requires |s| == 32 && -1 <= n < i <= 254
  {
    forall z {:trigger Look(z)} :: Look(z) ==> Settled(acc, i, idx, digit, n) == Recoded(s, n + 1)
  }

  /** The window of w positions at i is one digit, at idx. */
  ghost predicate Lands(s: seq<u8>, i: nat, w: nat, idx: int, digit: int)
    requires |s| == 32 && i < 254 && 1 <= w <= i + 1 && i - w < idx
  {
    forall z {:trigger Look(z)} :: Look(z) ==> digit * Pow(2, idx - (i - w + 1)) == Window(s, i, w)
  }

  /** Moving past a position that is not pending. */
  lemma SettledSkip(acc: int, i: int, idx: int, digit: int, n: int)
    requires -1 <= n < i && idx != i
    ensures Settled(2 * acc, i, idx, digit, n) == Settled(acc, i + 1, idx, digit, n)
  {
    if n < idx < i {
      SkipArith(acc, Pow(2, i - idx), Pow(2, i + 1 - idx));
    } else {
      SkipArith(acc, Pow(2, i - n - 1), Pow(2, i - n));
    }
  }

  lemma SkipArith(acc: int, p: int, p2: int)
    requires p2 == 2 * p
    ensures (2 * acc) * p == acc * p2
  {
  }

  /** Emitting the pending digit. */
  lemma SettledEmit(acc: int, i: int, digit: int, n: int)
    requires -1 <= n < i
    ensures Settled(2 * acc + digit, i, i, digit, n) == Settled(acc, i + 1, i, digit, n)
  {
    assert Pow(2, 1) == 2 * Pow(2, 0) && Pow(2, 0) == 1;
  }

  /** Opening a window of w positions at i, whose digit lands at idx. */
  lemma SettledOpen(acc: int, i: int, idx: int, digit: int, w: nat)
    requires 1 <= w <= i + 1 && i - w < idx <= i
    ensures Settled(acc, i + 1, idx, digit, i - w) == acc * Pow(2, w) + digit * Pow(2, idx - (i - w + 1))
  {
    PowAdd(2, i + 1 - idx, idx - (i - w + 1));
    OpenArith(acc, Pow(2, i + 1 - idx), Pow(2, idx - (i - w + 1)), Pow(2, w), digit);
  }

  lemma OpenArith(acc: int, p: int, q: int, r: int, d: int)
    requires p * q == r
    ensures (acc * p + d) * q == acc * r + d * q
  {
    assert (acc * p) * q == acc * (p * q);
  }

  /** A non-zero digit is odd and indexes a table of 2^(width-2) odd multiples. */
  ghost predicate IsDigit(digit: int, width: nat)
    requires width >= 1
  {
    digit == 0 || forall z {:trigger Look(z)} :: Look(z) ==>
      digit % 2 == 1 && -Pow(2, width - 1) < digit < Pow(2, width - 1)
  }

  /** slide_ctx */
  class Slide {
    var nextIndex: int
    var nextDigit: int
    var nextCheck: u8

    /** The position of the next check; the byte wraps to 255 below position 0. */
    function Due(): int
      reads this
    {
      if nextCheck == 255 then -1 else nextCheck
    }

    /** acc is the value of the digits emitted for the positions from i up, and what is pending completes it
        to the recoding of s. */
    ghost predicate Tracks(s: seq<u8>, width: nat, acc: int, i: nat)
      requires |s| == 32 && 2 <= width <= 8
      reads this
    {
      && Due() < i <= 254
      && forall z {:trigger Look(z)} :: Look(z) ==>
           (nextIndex == -1 || nextIndex > Due()) && IsDigit(nextDigit, width)
             && Completes(s, acc, i, nextIndex, nextDigit, Due())
    }

    /** slide_init: the first check is one above the highest set bit. */
    constructor (s: seq<u8>)
      requires |s| == 32 && s[31] < 32
      ensures 1 <= Due() <= 253
      ensures forall width: nat, i: nat {:trigger Tracks(s, width, 0, i)} :: 2 <= width <= 8 && Due() < i <= 254 ==>
              Tracks(s, width, 0, i)
    {
      var i := 252;
      TopBits(s, i + 1);
      while i > 0 && ScalarBit(s, i) == 0
        invariant 0 <= i <= 252 && High(s, i + 1) == 0
      {
        i := i - 1;
      }
      nextCheck, nextIndex, nextDigit := i + 1, -1, -1;
      new;
      forall width: nat, k: nat | 2 <= width <= 8 && Due() < k <= 254 ensures Tracks(s, width, 0, k) {
        StartsClean(s, i + 1, k, width);
      }
    }

    /** Lowers the next check; the subtraction is on a byte. */
    method Lower(n: nat)
      requires nextCheck <= 253 && n <= nextCheck + 1
      modifies this`nextCheck
      ensures Due() == old(Due()) - n
    {
      nextCheck := (nextCheck as int - n) % 256;
    }

    /** The first half of slide_step: at a check, move on or open a window. */
    method Check(width: nat, i: nat, s: seq<u8>, ghost acc: int)
      requires |s| == 32 && 2 <= width <= 8 && Tracks(s, width, acc, i + 1)
      modifies this
      ensures Tracks(s, width, acc, i + 1) && Due() < i
    {
      assert Look(0);
      if i == nextCheck {
        if ScalarBit(s, i) == ScalarBit(s, i - 1) {
          CheckMoves(s, acc, i, nextIndex, nextDigit);
          Lower(1);
        } else {
          var w, idx, digit := Open(width, i, s);
          CheckOpens(s, acc, i, nextIndex, nextDigit, idx, digit, w);
          nextIndex, nextDigit := idx, digit;
          Lower(w);
        }
      }
    }

    /** slide_step: the digit of position i. */
    method Step(width: nat, i: nat, s: seq<u8>, ghost acc: int) returns (digit: int)
      requires |s| == 32 && 2 <= width <= 8 && Tracks(s, width, acc, i + 1)
      modifies this
      ensures IsDigit(digit, width) && Tracks(s, width, 2 * acc + digit, i)
    {
      assert Look(0);
      Check(width, i, s, acc);
      Passes(s, acc, i, nextIndex, nextDigit, Due());
      digit := if i == nextIndex then nextDigit else 0;
    }
  }

  /** A scalar below 2^253 has no bits from 253 up. */
  lemma TopBits(s: seq<u8>, i: nat)
    requires |s| == 32 && s[31] < 32 && i == 253
    ensures High(s, i) == 0
  {
    var b := s[31];
    assert Half(b, 0) < 32;
    assert Half(b, 1) < 16 && Half(b, 2) < 8;
    assert Half(b, 3) < 4 && Half(b, 4) < 2;
    assert Half(b, 5) == 0 && Half(b, 6) == 0 && Half(b, 7) == 0;
    assert High(s, i + 3) == 0;
    assert High(s, i + 2) == 0 && High(s, i + 1) == 0;
  }

  lemma StartsClean(s: seq<u8>, n: nat, k: nat, width: nat)
    requires |s| == 32 && n < k <= 254 && High(s, n) == 0 && 2 <= width <= 8
    ensures Completes(s, 0, k, -1, -1, n) && IsDigit(-1, width)
  {
    PowMore(width - 1);
  }

  lemma {:induction false} PowMore(n: nat)
    requires n >= 1
    ensures Pow(2, n) >= 2 && Pow(2, n) % 2 == 0
  {
    PowPos(2, n - 1);
  }

  /** With nothing pending at a check, the digits so far are worth acc there and 2 acc one position below. */
  lemma AtCheck(acc: int, i: nat, idx: int, digit: int)
    requires idx > i || idx == -1
    ensures Settled(acc, i + 1, idx, digit, i) == acc
    ensures Settled(acc, i + 1, idx, digit, i - 1) == 2 * acc
  {
    assert Pow(2, 0) == 1 && Pow(2, 1) == 2;
  }

  lemma CheckMoves(s: seq<u8>, acc: int, i: nat, idx: int, digit: int)
    requires |s| == 32 && i < 254 && (idx > i || idx == -1) && ScalarBit(s, i) == ScalarBit(s, i - 1)
    requires Completes(s, acc, i + 1, idx, digit, i)
    ensures Completes(s, acc, i + 1, idx, digit, i - 1)
  {
    assert Look(0);
    AtCheck(acc, i, idx, digit);
    RecodedStep(s, i);
  }

  lemma CheckOpens(s: seq<u8>, acc: int, i: nat, oldIdx: int, oldDigit: int, idx: int, digit: int, w: nat)
    requires |s| == 32 && i < 254 && (oldIdx > i || oldIdx == -1) && 1 <= w <= i + 1 && i - w < idx <= i
    requires Completes(s, acc, i + 1, oldIdx, oldDigit, i) && Lands(s, i, w, idx, digit)
    ensures Completes(s, acc, i + 1, idx, digit, i - w)
  {
    assert Look(0);
    AtCheck(acc, i, oldIdx, oldDigit);
    WindowStep(s, i, w);
    SettledOpen(acc, i, idx, digit, w);
  }

  /** The position is passed, with the digit it emits. */
  lemma Passes(s: seq<u8>, acc: int, i: nat, idx: int, digit: int, n: int)
    requires |s| == 32 && -1 <= n < i < 254 && Completes(s, acc, i + 1, idx, digit, n)
    ensures Completes(s, 2 * acc + if i == idx then digit else 0, i, idx, digit, n)
  {
    assert Look(0);
    if i == idx {
      SettledEmit(acc, i, digit, n);
    } else {
      SettledSkip(acc, i, idx, digit, n);
    }
  }

  /** The window that starts at i: its width, and where its one digit lands. */
  method Open(width: nat, i: nat, s: seq<u8>) returns (w: nat, idx: int, digit: int)
    requires |s| == 32 && 2 <= width <= 8 && i < 254 && ScalarBit(s, i) != ScalarBit(s, i - 1)
    ensures 1 <= w <= i + 1 && w <= width && i - w < idx <= i
    ensures IsDigit(digit, width)
    ensures Lands(s, i, w, idx, digit)
  {
    w := if width < i + 1 then width else i + 1;
    var v := WindowValue(i, w, s);
    WindowBound(s, i, w);
    idx, digit := Digit(v, i, w, width, s);
  }

  method WindowValue(i: nat, w: nat, s: seq<u8>) returns (v: int)
    requires |s| == 32 && i < 254 && 1 <= w <= i + 1
    ensures v == Window(s, i, w)
  {
    var top := ScalarBit(s, i) * Pow(2, w - 1);
    v := -top;
    for j := 0 to w - 1
      invariant v == -top + Bits(s, i - (w - 1), j)
    {
      v := v + ScalarBit(s, i - (w - 1) + j) * Pow(2, j);
    }
    v := v + ScalarBit(s, i - w);
  }

  /** The one non-zero digit of a window value, and its position. */
  method Digit(v: int, i: nat, w: nat, width: nat, ghost s: seq<u8>) returns (idx: int, digit: int)
    requires |s| == 32 && 2 <= width <= 8 && i < 254 && 1 <= w <= i + 1 && w <= width
    requires v == Window(s, i, w) && v != 0 && -Pow(2, w - 1) <= v <= Pow(2, w - 1)
    ensures i - w < idx <= i && IsDigit(digit, width) && Lands(s, i, w, idx, digit)
  {
    DigitOf(v, w);
    var shift := MaskLog(LowestBit(v));
    idx := i - (w - 1) + shift;
    PowPos(2, shift);
    digit := v / Pow(2, shift);
    OddDigit(digit, Pow(2, shift), v, w, width);
  }

  lemma OddDigit(digit: int, p: int, v: int, w: nat, width: nat)
    requires p > 0 && v == digit * p && digit % 2 == 1 && 1 <= w <= width && width >= 2
    requires -Pow(2, w - 1) <= v <= Pow(2, w - 1)
    ensures IsDigit(digit, width)
  {
    PowAdd(2, w - 1, width - w);
    PowPos(2, w - 1);
    PowPos(2, width - w);
    MulAtLeast(Pow(2, width - w), Pow(2, w - 1));
    PowMore(width - 1);
    OddArith(digit, p, v, Pow(2, width - 1));
  }

  lemma OddArith(digit: int, p: int, v: int, bound: int)
    requires p > 0 && v == digit * p && digit % 2 == 1 && -bound <= v <= bound && bound % 2 == 0
    ensures -bound < digit < bound
  {
    assert digit > 0 ==> (p - 1) * digit >= 0;
    assert digit < 0 ==> (p - 1) * -digit >= 0;
  }

  // ---------- The merged double-and-add loop ----------

  /** The point operations. */
  datatype Group<!T> = Group(zero: T, add: (T, T) -> T, neg: T -> T)

  ghost predicate LawsAt<T>(g: Group<T>, a: T, b: T, c: T) {
    && g.add(a, b) == g.add(b, a)
    && g.add(g.add(a, b), c) == g.add(a, g.add(b, c))
    && g.add(a, g.zero) == a
    && g.add(a, g.neg(a)) == g.zero
  }

  /** The operations form an abelian group. */
  ghost predicate IsGroup<T(!new)>(g: Group<T>) {
    forall a, b, c {:trigger LawsAt(g, a, b, c)} :: LawsAt(g, a, b, c)
  }

  /** [n]p */
  function Times<T>(g: Group<T>, n: int, p: T): T
    decreases if n < 0 then -n else n
  {
    if n == 0 then g.zero
    else if n > 0 then g.add(Times(g, n - 1, p), p)
    else g.add(Times(g, n + 1, p), g.neg(p))
  }

  lemma Cancel<T(!new)>(g: Group<T>, a: T, p: T)
    requires IsGroup(g)
    ensures g.add(g.add(a, g.neg(p)), p) == a && g.add(g.add(a, p), g.neg(p)) == a
  {
    assert LawsAt(g, a, g.neg(p), p);
    assert LawsAt(g, a, p, g.neg(p));
    assert LawsAt(g, p, g.neg(p), p);
  }

  lemma TimesStep<T(!new)>(g: Group<T>, n: int, p: T)
    requires IsGroup(g)
    ensures Times(g, n + 1, p) == g.add(Times(g, n, p), p)
    ensures Times(g, n - 1, p) == g.add(Times(g, n, p), g.neg(p))
  {
    Cancel(g, Times(g, n + 1, p), p);
    Cancel(g, Times(g, n - 1, p), p);
  }

  /** Multiples add up. */
  lemma {:induction false} TimesAdd<T(!new)>(g: Group<T>, m: int, n: int, p: T)
    requires IsGroup(g)
    ensures Times(g, m + n, p) == g.add(Times(g, m, p), Times(g, n, p))
    decreases if n < 0 then -n else n
  {
    if n == 0 {
      assert LawsAt(g, Times(g, m, p), g.zero, g.zero);
    } else if n > 0 {
      TimesAdd(g, m, n - 1, p);
      TimesStep(g, m + n - 1, p);
      assert LawsAt(g, Times(g, m, p), Times(g, n - 1, p), p);
    } else {
      TimesAdd(g, m, n + 1, p);
      TimesStep(g, m + n + 1, p);
      assert LawsAt(g, Times(g, m, p), Times(g, n + 1, p), g.neg(p));
    }
  }

  /** [-n]p is the negation of [n]p. */
  lemma TimesNeg<T(!new)>(g: Group<T>, n: int, p: T)
    requires IsGroup(g)
    ensures Times(g, -n, p) == g.neg(Times(g, n, p))
  {
    TimesAdd(g, -n, n, p);
    var x, y := Times(g, n, p), Times(g, -n, p);
    Cancel(g, y, x);
    assert LawsAt(g, g.neg(x), g.zero, x);
    assert LawsAt(g, g.zero, g.neg(x), x);
  }

  /** [m]p + [n]q */
  function Pair<T>(g: Group<T>, m: int, p: T, n: int, q: T): T {
    g.add(Times(g, m, p), Times(g, n, q))
  }

  lemma PairLeft<T(!new)>(g: Group<T>, m: int, p: T, n: int, q: T, d: int)
    requires IsGroup(g)
    ensures g.add(Pair(g, m, p, n, q), Times(g, d, p)) == Pair(g, m + d, p, n, q)
  {
    TimesAdd(g, m, d, p);
    var x, y, z := Times(g, m, p), Times(g, n, q), Times(g, d, p);
    assert LawsAt(g, x, y, z);
    assert LawsAt(g, y, z, x);
    assert LawsAt(g, x, z, y);
  }

  lemma PairRight<T(!new)>(g: Group<T>, m: int, p: T, n: int, q: T, d: int)
    requires IsGroup(g)
    ensures g.add(Pair(g, m, p, n, q), Times(g, d, q)) == Pair(g, m, p, n + d, q)
  {
    TimesAdd(g, n, d, q);
    assert LawsAt(g, Times(g, m, p), Times(g, n, q), Times(g, d, q));
  }

  lemma PairDouble<T(!new)>(g: Group<T>, m: int, p: T, n: int, q: T)
    requires IsGroup(g)
    ensures g.add(Pair(g, m, p, n, q), Pair(g, m, p, n, q)) == Pair(g, 2 * m, p, 2 * n, q)
  {
    var s := Pair(g, m, p, n, q);
    assert LawsAt(g, s, Times(g, m, p), Times(g, n, q));
    PairLeft(g, m, p, n, q, m);
    PairRight(g, 2 * m, p, n, q, n);
  }

  /** t holds the odd multiples p, 3p, 5p, ... */
  ghost predicate OddMultiples<T(!new)>(g: Group<T>, t: seq<T>, p: T) {
    forall k :: 0 <= k < |t| ==> t[k] == Times(g, 2 * k + 1, p)
  }

  ghost predicate IsTable<T(!new)>(g: Group<T>, t: seq<T>, p: T, width: nat) {
    2 <= width <= 8 && forall z {:trigger LookTable(z)} :: LookTable(z) ==>
      |t| == Pow(2, width - 2) && OddMultiples(g, t, p)
  }

  /** The look-up table of the first n odd multiples: each is the one before plus 2p. */
  method BuildTable<T(!new)>(g: Group<T>, p: T, n: nat) returns (t: seq<T>)
    requires IsGroup(g) && n >= 1
    ensures |t| == n && OddMultiples(g, t, p)
  {
    var twice := g.add(p, p);
    assert Times(g, 1, p) == p && Times(g, 2, p) == twice by {
      assert Times(g, 0, p) == g.zero && Times(g, 1, p) == g.add(g.zero, p);
      assert LawsAt(g, g.zero, p, p) && LawsAt(g, p, p, p);
    }
    t := [p];
    while |t| < n
      invariant 1 <= |t| <= n && OddMultiples(g, t, p)
    {
      TimesAdd(g, 2, 2 * |t| - 1, p);
      t := t + [g.add(twice, t[|t| - 1])];
    }
  }

  /** Adds or subtracts the table entry a signed digit selects. */
  method AddDigit<T(!new)>(g: Group<T>, sum: T, digit: int, t: seq<T>, ghost p: T, width: nat) returns (r: T)
    requires IsGroup(g) && IsTable(g, t, p, width) && IsDigit(digit, width)
    ensures r == g.add(sum, Times(g, digit, p))
  {
    assert Look(0) && LookTable(0);
    r := sum;
    assert Pow(2, width - 1) == 2 * Pow(2, width - 2);
    if digit > 0 {
      r := g.add(sum, t[digit / 2]);
    } else if digit < 0 {
      r := g.add(sum, g.neg(t[(-digit) / 2]));
      TimesNeg(g, -digit, p);
    } else {
      assert LawsAt(g, sum, g.zero, g.zero);
    }
  }

  /** sum == [m]p + [n]q */
  ghost predicate IsPair<T>(g: Group<T>, sum: T, m: int, p: T, n: int, q: T) {
    forall z {:trigger LookPair(z)} :: LookPair(z) ==> sum == Pair(g, m, p, n, q)
  }

  lemma PairRound<T(!new)>(g: Group<T>, sum: T, m: int, p: T, n: int, q: T, d: int, e: int)
    requires IsGroup(g) && IsPair(g, sum, m, p, n, q)
    ensures IsPair(g, g.add(g.add(g.add(sum, sum), Times(g, d, p)), Times(g, e, q)), 2 * m + d, p, 2 * n + e, q)
  {
    assert LookPair(0);
    PairDouble(g, m, p, n, q);
    PairLeft(g, 2 * m, p, 2 * n, q, d);
    PairRight(g, 2 * m + d, p, 2 * n, q, e);
  }

  lemma PairZero<T(!new)>(g: Group<T>, m: int, p: T, n: int, q: T)
    requires IsGroup(g) && m == 0 && n == 0
    ensures IsPair(g, g.zero, m, p, n, q)
  {
    assert LawsAt(g, g.zero, g.zero, g.zero);
  }

  /** The group operations of a round. */
  method DoubleAndAdd<T(!new)>(g: Group<T>, sum: T,
                               hDigit: int, hTable: seq<T>, hWidth: nat, ghost p: T, ghost m: int, ghost m': int,
                               sDigit: int, sTable: seq<T>, sWidth: nat, ghost q: T, ghost n: int, ghost n': int)
                                 returns (r: T)
    requires IsGroup(g) && IsTable(g, hTable, p, hWidth) && IsTable(g, sTable, q, sWidth)
    requires IsDigit(hDigit, hWidth) && IsDigit(sDigit, sWidth)
    requires IsPair(g, sum, m, p, n, q) && m' == 2 * m + hDigit && n' == 2 * n + sDigit
    ensures IsPair(g, r, m', p, n', q)
  {
    r := g.add(sum, sum);
    r := AddDigit(g, r, hDigit, hTable, p, hWidth);
    r := AddDigit(g, r, sDigit, sTable, q, sWidth);
    PairRound(g, sum, m, p, n, q, hDigit, sDigit);
  }

  /** The digits of a round, one of each scalar. */
  method StepBoth(i: nat, hSlide: Slide, h: seq<u8>, hWidth: nat, ghost m: int,
                  sSlide: Slide, s: seq<u8>, sWidth: nat, ghost n: int)
    returns (hDigit: int, ghost m': int, sDigit: int, ghost n': int)
    requires |h| == 32 && |s| == 32 && hSlide != sSlide && 2 <= hWidth <= 8 && 2 <= sWidth <= 8
    requires hSlide.Tracks(h, hWidth, m, i + 1) && sSlide.Tracks(s, sWidth, n, i + 1)
    modifies hSlide, sSlide
    ensures hSlide.Tracks(h, hWidth, m', i) && sSlide.Tracks(s, sWidth, n', i)
    ensures IsDigit(hDigit, hWidth) && IsDigit(sDigit, sWidth) && m' == 2 * m + hDigit && n' == 2 * n + sDigit
  {
    hDigit := hSlide.Step(hWidth, i, h, m);
    sDigit := sSlide.Step(sWidth, i, s, n);
    m', n' := 2 * m + hDigit, 2 * n + sDigit;
  }

  /** The loop of crypto_eddsa_check_equation, from position top down. */
  method Rounds<T(!new)>(g: Group<T>, start: T, top: int,
                         hSlide: Slide, h: seq<u8>, hTable: seq<T>, hWidth: nat, ghost p: T, ghost m0: int,
                         sSlide: Slide, s: seq<u8>, sTable: seq<T>, sWidth: nat, ghost q: T, ghost n0: int)
    returns (sum: T, ghost m: int, ghost n: int)
    requires IsGroup(g) && |h| == 32 && |s| == 32 && hSlide != sSlide && 0 <= top <= 253
             && IsPair(g, start, m0, p, n0, q)
    requires IsTable(g, hTable, p, hWidth) && IsTable(g, sTable, q, sWidth)
    requires hSlide.Tracks(h, hWidth, m0, top + 1) && sSlide.Tracks(s, sWidth, n0, top + 1)
    modifies hSlide, sSlide
    ensures hSlide.Tracks(h, hWidth, m, 0) && sSlide.Tracks(s, sWidth, n, 0)
    ensures IsPair(g, sum, m, p, n, q)
  {
    var i := top;
    m, n, sum := m0, n0, start;
    while i >= 0
      invariant -1 <= i <= 253
      invariant hSlide.Tracks(h, hWidth, m, i + 1) && sSlide.Tracks(s, sWidth, n, i + 1)
      invariant IsPair(g, sum, m, p, n, q)
    {
      var hDigit, sDigit;
      ghost var m1, n1 := m, n;
      hDigit, m, sDigit, n := StepBoth(i, hSlide, h, hWidth, m, sSlide, s, sWidth, n);
      sum := DoubleAndAdd(g, sum, hDigit, hTable, hWidth, p, m1, m, sDigit, sTable, sWidth, q, n1, n);
      i := i - 1;
    }
  }

  /** Both scalars are recoded on the fly, each with its own window width and table of odd multiples. */
  method DoubleScalar<T(!new)>(g: Group<T>, h: seq<u8>, hTable: seq<T>, hWidth: nat, ghost p: T,
                               s: seq<u8>, sTable: seq<T>, sWidth: nat, ghost q: T) returns (sum: T)
    requires IsGroup(g) && |h| == 32 && |s| == 32 && h[31] < 32 && s[31] < 32
    requires IsTable(g, hTable, p, hWidth) && IsTable(g, sTable, q, sWidth)
    ensures IsPair(g, sum, Le(h), p, Le(s), q)
  {
    ghost var m, n := 0, 0;
    var hSlide, sSlide, top := Start(h, hWidth, m, s, sWidth, n);
    PairZero(g, m, p, n, q);
    sum, m, n := Rounds(g, g.zero, top, hSlide, h, hTable, hWidth, p, m, sSlide, s, sTable, sWidth, q, n);
    assert Look(0);
    Finished(h, hSlide.nextIndex, hSlide.nextDigit, m);
    Finished(s, sSlide.nextIndex, sSlide.nextDigit, n);
  }

  /** Both recoders, and the higher of their first checks. */
  method Start(h: seq<u8>, ghost hWidth: nat, ghost m: int, s: seq<u8>, ghost sWidth: nat, ghost n: int)
    returns (hSlide: Slide, sSlide: Slide, i: int)
    requires |h| == 32 && |s| == 32 && h[31] < 32 && s[31] < 32 && 2 <= hWidth <= 8 && 2 <= sWidth <= 8 && m == 0
             && n == 0
    ensures fresh(hSlide) && fresh(sSlide) && hSlide != sSlide && 0 <= i <= 253
    ensures hSlide.Tracks(h, hWidth, m, i + 1) && sSlide.Tracks(s, sWidth, n, i + 1)
  {
    hSlide := new Slide(h);
    sSlide := new Slide(s);
    i := if hSlide.nextCheck > sSlide.nextCheck then hSlide.nextCheck else sSlide.nextCheck;
    assert hSlide.Tracks(h, hWidth, 0, i + 1) && sSlide.Tracks(s, sWidth, 0, i + 1);
  }

  /** [h](-A) + [s]B as the signature check computes it: windows of 3 over a table built from -A, windows of 5
      over the constant table of B. */
  method CheckSum<T(!new)>(g: Group<T>, h: seq<u8>, minusA: T, s: seq<u8>, bWindow: seq<T>, ghost b: T) returns (sum: T)
    requires IsGroup(g) && |h| == 32 && |s| == 32 && h[31] < 32 && s[31] < 32
    requires |bWindow| == 8 && OddMultiples(g, bWindow, b)
    ensures sum == g.add(Times(g, Le(h), minusA), Times(g, Le(s), b))
  {
    var lutA := BuildTable(g, minusA, 2);
    assert Pow(2, 3) == 8 && Pow(2, 1) == 2;
    sum := DoubleScalar(g, h, lutA, 3, minusA, s, bWindow, 5, b);
    assert LookPair(0);
  }

  /** After position 0 the digits have spelled out the scalar. */
  lemma Finished(s: seq<u8>, idx: int, digit: int, acc: int)
    requires |s| == 32 && Completes(s, acc, 0, idx, digit, -1)
    ensures acc == Le(s)
  {
    assert Look(0);
    assert Pow(2, 0) == 1;
    HighBytes(s, 0);
    assert s[0..] == s;
  }
}
