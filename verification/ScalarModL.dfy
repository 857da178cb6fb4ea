/** Scalars modulo the order L of the Ed25519 base point: schoolbook products of 32-bit
    limbs, Barrett and Montgomery reduction, and inversion by exponentiation. */
module ScalarModL {
  import opened Words
  import OrderPrime
  import Primality

  const L: int := 0x10000000_00000000_00000000_00000000_14def9de_a2f79cd6_5812631a_5cf5d3ed

  function ModL(x: int): int {
    x % 0x10000000_00000000_00000000_00000000_14def9de_a2f79cd6_5812631a_5cf5d3ed
  }

  // ---------- Rows of products ----------

  lemma RowArith(low: int, blow: int, x: int, a: int, b: int, c: int, p: int, d: int, e: int, c': int,
                 low': int, blow': int, x': int)
    requires low + c * p == x + a * blow
    requires c + (d + a * b) == c' * 0x1_0000_0000 + e
    requires low' == low + p * e && blow' == blow + p * b && x' == x + p * d
    ensures low' + c' * (0x1_0000_0000 * p) == x' + a * blow'
  {
    CarryStep(low + c * p, low, c, p, d + a * b, 0x1_0000_0000, e, c');
    assert p * (d + a * b) == p * d + a * (p * b);
    assert a * (blow + p * b) == a * blow + a * (p * b);
  }

  lemma RowExtends(out: seq<u32>, was: seq<u32>, b: seq<u32>, j: nat, a: u32, c: u32, e: u32, c': u32)
    requires j < |was| && j < |b| && |out| == j
    requires Limbs(out) + c * Pow(0x1_0000_0000, j) == Limbs(was[..j]) + a * Limbs(b[..j])
    requires c + (was[j] + a * b[j]) == c' * 0x1_0000_0000 + e
    ensures Limbs(out + [e]) + c' * Pow(0x1_0000_0000, j + 1) == Limbs(was[..j + 1]) + a * Limbs(b[..j + 1])
  {
    LimbsSnoc(out, e);
    LimbsNext(was, j);
    LimbsNext(b, j);
    RowArith(Limbs(out), Limbs(b[..j]), Limbs(was[..j]), a, b[j], c, Pow(0x1_0000_0000, j), was[j], e, c',
             Limbs(out + [e]), Limbs(b[..j + 1]), Limbs(was[..j + 1]));
  }

  /** The 64-bit accumulator of one limb product never overflows. */
  method MulAdd(c: u32, d: u32, a: u32, b: u32) returns (e: u32, c': u32)
    ensures c' * 0x1_0000_0000 + e == c + (d + a * b)
  {
    var x: int, y: int := a, b;
    MulBound(x, 0xffff_ffff, y, 0xffff_ffff);
    var s: u64 := x * y;
    s := s + d;
    s := s + c;
    e, c' := s % 0x1_0000_0000, s / 0x1_0000_0000;
  }

  /** One row of a schoolbook product: n limbs of p, starting at i, gain a * b. */
  method AddRow(p: array<u32>, i: nat, a: u32, b: seq<u32>, n: nat) returns (carry: u32)
    requires i + n <= p.Length && n <= |b|
    modifies p
    ensures Limbs(p[i..i + n]) + carry * Pow(0x1_0000_0000, n) == old(Limbs(p[i..i + n])) + a * Limbs(b[..n])
    ensures p[..i] == old(p[..i]) && p[i + n..] == old(p[i + n..])
  {
    carry := 0;
    ghost var was := p[i..i + n];
    for j := 0 to n
      invariant p[..i] == old(p[..i]) && p[i + j..] == old(p[i + j..])
      invariant Limbs(p[i..i + j]) + carry * Pow(0x1_0000_0000, j) == Limbs(was[..j]) + a * Limbs(b[..j])
    {
      ghost var out := p[i..i + j];
      assert p[i + j] == was[j];
      var e, c' := MulAdd(carry, p[i + j], a, b[j]);
      RowExtends(out, was, b, j, a, carry, e, c');
      p[i + j] := e;
      assert p[i..i + j + 1] == out + [e];
      carry := c';
    }
    assert was[..n] == was;
  }

  lemma LimbsCarry(low: seq<u32>, win: seq<u32>, c: u32, p: int, pm: int)
    requires p == Pow(0x1_0000_0000, |low|) && pm == Pow(0x1_0000_0000, |win|)
    ensures Limbs(low + win + [c]) == Limbs(low) + p * Limbs(win) + (p * pm) * c
  {
    LimbsAppend(low, win);
    LimbsSnoc(low + win, c);
    PowAdd(0x1_0000_0000, |low|, |win|);
  }

  lemma ProductRow(low: seq<u32>, win: seq<u32>, was: seq<u32>, c: u32, x: int, al: int, ai: u32, bv: int, p: int,
                   pm: int)
    requires |win| == |was| && p == Pow(0x1_0000_0000, |low|) && pm == Pow(0x1_0000_0000, |was|)
    requires Limbs(win) + c * pm == Limbs(was) + ai * bv
    requires Limbs(low + was) == x + al * bv
    ensures Limbs(low + win + [c]) == x + (al + p * ai) * bv
  {
    assert Limbs(low + was) == Limbs(low) + p * Limbs(was) by { LimbsAppend(low, was); }
    LimbsCarry(low, win, c, p, pm);
    ProductRowArith(p, pm, Limbs(low), Limbs(win), Limbs(was), c, x, al, ai, bv,
                    Limbs(low + was), Limbs(low + win + [c]));
  }

  lemma ProductRowArith(p: int, pm: int, low: int, win: int, was: int, c: int, x: int, al: int, ai: int, b: int,
                        old': int, new': int)
    requires win + c * pm == was + ai * b
    requires old' == low + p * was && old' == x + al * b
    requires new' == low + p * win + (p * pm) * c
    ensures new' == x + (al + p * ai) * b
  {
    assert p * (win + c * pm) == p * (was + ai * b);
  }

  /** Schoolbook multiplication, onto the number already in the low |b| limbs of p.  The higher limbs
      of p are overwritten, never read. */
  method Product(p: array<u32>, a: seq<u32>, b: seq<u32>)
    requires p.Length == |a| + |b|
    modifies p
    ensures Limbs(p[..]) == old(Limbs(p[..|b|])) + Limbs(a) * Limbs(b)
  {
    var m := |b|;
    ghost var x := Limbs(p[..m]);
    for i := 0 to |a|
      invariant Limbs(p[..i + m]) == x + Limbs(a[..i]) * Limbs(b)
    {
      ghost var low, was := p[..i], p[i..i + m];
      assert p[..i + m] == low + was && b[..m] == b;
      var carry := AddRow(p, i, a[i], b, m);
      ghost var win := p[i..i + m];
      p[i + m] := carry;
      assert p[..i + 1 + m] == low + win + [carry];
      LimbsNext(a, i);
      ProductRow(low, win, was, carry, x, Limbs(a[..i]), a[i], Limbs(b), Pow(0x1_0000_0000, i), Pow(0x1_0000_0000, m));
    }
    assert a[..|a|] == a && p[..] == p[..|a| + m];
  }

  const B256: int := 0x1_00000000_00000000_00000000_00000000_00000000_00000000_00000000_00000000

  function Mod256(x: int): int {
    x % 0x1_00000000_00000000_00000000_00000000_00000000_00000000_00000000_00000000
  }

  /** A truncated row: what falls off the top is a multiple of B^(|low| + |was|). */
  lemma LowRow(low: seq<u32>, win: seq<u32>, was: seq<u32>, c: u32, al: int, ai: u32, b: seq<u32>, n: nat, k: int)
    requires |win| == |was| == n <= |b|
    requires Limbs(win) + c * Pow(0x1_0000_0000, n) == Limbs(was) + ai * Limbs(b[..n])
    requires Limbs(low + was) + k * Pow(0x1_0000_0000, |low| + n) == al * Limbs(b)
    ensures Limbs(low + win) + (k + c + ai * Limbs(b[n..])) * Pow(0x1_0000_0000, |low| + n)
         == (al + Pow(0x1_0000_0000, |low|) * ai) * Limbs(b)
  {
    var p, pn := Pow(0x1_0000_0000, |low|), Pow(0x1_0000_0000, n);
    LimbsAppend(low, was);
    LimbsAppend(low, win);
    assert b == b[..n] + b[n..];
    LimbsAppend(b[..n], b[n..]);
    PowAdd(0x1_0000_0000, |low|, n);
    LowRowArith(p, pn, Limbs(low), Limbs(win), Limbs(was), c, ai, Limbs(b[..n]), Limbs(b[n..]), al, k,
                Limbs(low + was), Limbs(low + win), Limbs(b));
  }

  lemma LowRowArith(p: int, pn: int, low: int, win: int, was: int, c: int, ai: int, bl: int, bh: int, al: int, k: int,
                    old': int, new': int, b: int)
    requires win + c * pn == was + ai * bl
    requires old' == low + p * was && new' == low + p * win && b == bl + pn * bh
    requires old' + k * (p * pn) == al * b
    ensures new' + (k + c + ai * bh) * (p * pn) == (al + p * ai) * b
  {
    assert p * win + c * (p * pn) == p * was + p * ai * bl by {
      assert p * (win + c * pn) == p * (was + ai * bl);
    }
  }

  /** The low 256 bits of a product, computed without the high ones. */
  method LowProduct(p: array<u32>, a: seq<u32>, b: seq<u32>)
    requires p.Length >= 8 && |a| == 8 && |b| == 8
    requires forall i :: 0 <= i < 8 ==> p[i] == 0
    modifies p
    ensures Limbs(p[..8]) == Mod256(Limbs(a) * Limbs(b))
    ensures p[8..] == old(p[8..])
  {
    ghost var k := 0;
    assert p[..8] == seq(8, _ => 0);
    NumZeros(8, 0x1_0000_0000);
    for i := 0 to 8
      invariant p[8..] == old(p[8..])
      invariant Limbs(p[..8]) + k * Pow(0x1_0000_0000, 8) == Limbs(a[..i]) * Limbs(b)
    {
      ghost var low, was := p[..i], p[i..8];
      assert p[..8] == low + was;
      var carry := AddRow(p, i, a[i], b, 8 - i);
      assert p[..8] == low + p[i..8];
      LimbsNext(a, i);
      LowRow(low, p[i..8], was, carry, Limbs(a[..i]), a[i], b, 8 - i, k);
      k := k + carry + a[i] * Limbs(b[8 - i..]);
    }
    assert a[..8] == a;
    NumBound(p[..8], 0x1_0000_0000);
    PowLimbs();
    ModUnique(Limbs(a) * Limbs(b), k, B256, Limbs(p[..8]));
  }

  // ---------- Sums and differences ----------

  lemma SumExtends(out: seq<u32>, x: seq<u32>, y: seq<u32>, j: nat, c0: int, c: u32, e: u32, c': u32)
    requires j < |x| && j < |y| && |out| == j
    requires Limbs(out) + c * Pow(0x1_0000_0000, j) == Limbs(x[..j]) + Limbs(y[..j]) + c0
    requires c + (x[j] as int + y[j] as int) == c' * 0x1_0000_0000 + e
    ensures Limbs(out + [e]) + c' * Pow(0x1_0000_0000, j + 1) == Limbs(x[..j + 1]) + Limbs(y[..j + 1]) + c0
  {
    LimbsSnoc(out, e);
    LimbsNext(x, j);
    LimbsNext(y, j);
    SumArith(Limbs(out), Limbs(x[..j]), Limbs(y[..j]), c0, c, Pow(0x1_0000_0000, j), x[j], y[j], e, c',
             Limbs(out + [e]), Limbs(x[..j + 1]), Limbs(y[..j + 1]));
  }

  lemma SumArith(low: int, x: int, y: int, c0: int, c: int, p: int, dx: int, dy: int, e: int, c': int,
                 low': int, x': int, y': int)
    requires low + c * p == x + y + c0
    requires c + (dx + dy) == c' * 0x1_0000_0000 + e
    requires low' == low + p * e && x' == x + p * dx && y' == y + p * dy
    ensures low' + c' * (0x1_0000_0000 * p) == x' + y' + c0
  {
    CarryStep(x + y + c0, low, c, p, dx + dy, 0x1_0000_0000, e, c');
  }

  method AddCarry(c: u32, x: u32, y: u32) returns (e: u32, c': u32)
    requires c <= 1
    ensures c' <= 1 && c + (x as int + y as int) == c' * 0x1_0000_0000 + e
  {
    var s: u64 := x;
    s := s + y;
    s := s + c;
    e, c' := s % 0x1_0000_0000, s / 0x1_0000_0000;
  }

  /** Adds y and a carry to the limbs of x from off on, into r, which may be x itself. */
  method AddLimbs(r: array<u32>, x: array<u32>, off: nat, y: seq<u32>, c0: u32) returns (carry: u32)
    requires off + |y| <= x.Length && |y| <= r.Length && (r != x || off == 0) && c0 <= 1
    modifies r
    ensures carry <= 1
    ensures Limbs(r[..|y|]) + carry * Pow(0x1_0000_0000, |y|) == old(Limbs(x[off..off + |y|])) + Limbs(y) + c0
    ensures r[|y|..] == old(r[|y|..])
  {
    carry := c0;
    ghost var was := x[off..off + |y|];
    for j := 0 to |y|
      invariant carry <= 1 && forall k :: j <= k < r.Length ==> r[k] == old(r[k])
      invariant forall k :: j <= k < |y| ==> x[off + k] == was[k]
      invariant Limbs(r[..j]) + carry * Pow(0x1_0000_0000, j) == Limbs(was[..j]) + Limbs(y[..j]) + c0
    {
      ghost var out := r[..j];
      var e, c' := AddCarry(carry, x[off + j], y[j]);
      SumExtends(out, was, y, j, c0, carry, e, c');
      r[j] := e;
      assert r[..j + 1] == out + [e];
      carry := c';
    }
    assert was[..|y|] == was && y[..|y|] == y;
  }

  /** Bitwise complement of every limb. */
  function Complement(y: seq<u32>): (z: seq<u32>)
    ensures |z| == |y|
  {
    if y == [] then [] else [0xffff_ffff - y[0]] + Complement(y[1..])
  }

  lemma {:induction false} ComplementLimbs(y: seq<u32>)
    ensures Limbs(Complement(y)) == Pow(0x1_0000_0000, |y|) - 1 - Limbs(y)
  {
    if y != [] {
      ComplementLimbs(y[1..]);
      assert Complement(y)[1..] == Complement(y[1..]);
    }
  }

  const LLIMBS: seq<u32> := [0x5cf5d3ed, 0x5812631a, 0xa2f79cd6, 0x14def9de, 0, 0, 0, 0x10000000]

  lemma LValue()
    ensures Limbs(LLIMBS) == L
  {
    Limbs8(LLIMBS);
  }

  /** Computes x - L in two's complement; the carry out tells whether x >= L. */
  method IsAboveL(x: array<u32>, off: nat) returns (above: u32)
    requires off + 8 <= x.Length
    ensures above == if Limbs(x[off..off + 8]) >= L then 1 else 0
  {
    var tmp := new u32[8];
    above := AddLimbs(tmp, x, off, Complement(LLIMBS), 1);
    CarryTells(x[off..off + 8], tmp[..8], above);
  }

  lemma CarryTells(was: seq<u32>, r: seq<u32>, carry: u32)
    requires |was| == 8 && |r| == 8 && carry <= 1
    requires Limbs(r) + carry * Pow(0x1_0000_0000, 8) == Limbs(was) + Limbs(Complement(LLIMBS)) + 1
    ensures carry == if Limbs(was) >= L then 1 else 0
  {
    ComplementLimbs(LLIMBS);
    LValue();
    PowLimbs();
    NumBound(was, 0x1_0000_0000);
    NumBound(r, 0x1_0000_0000);
  }

  /** One conditional subtraction of L. */
  method RemoveL(r: array<u32>, x: array<u32>, off: nat)
    requires off + 8 <= x.Length && 8 <= r.Length && (r != x || off == 0)
    modifies r
    ensures var v := old(Limbs(x[off..off + 8])); Limbs(r[..8]) == if v >= L then v - L else v
    ensures r[8..] == old(r[8..])
  {
    var above := IsAboveL(x, off);
    var masked := if above == 1 then Complement(LLIMBS) else seq(8, _ => 0);
    ghost var was := x[off..off + 8];
    var carry := AddLimbs(r, x, off, masked, above);
    MaskedSum(was, masked, r[..8], above, carry);
  }

  /** Adding the complement of L and one subtracts L; adding zeros changes nothing. */
  lemma MaskedSum(was: seq<u32>, masked: seq<u32>, r: seq<u32>, above: u32, carry: u32)
    requires |was| == 8 && |r| == 8 && above == if Limbs(was) >= L then 1 else 0
    requires masked == if above == 1 then Complement(LLIMBS) else seq(8, _ => 0)
    requires Limbs(r) + carry * Pow(0x1_0000_0000, |masked|) == Limbs(was) + Limbs(masked) + above
    ensures Limbs(r) == if Limbs(was) >= L then Limbs(was) - L else Limbs(was)
  {
    ComplementLimbs(LLIMBS);
    LValue();
    PowLimbs();
    NumZeros(8, 0x1_0000_0000);
    NumBound(was, 0x1_0000_0000);
    NumBound(r, 0x1_0000_0000);
    MaskedArith(Limbs(was), Limbs(masked), Limbs(r), above, carry);
  }

  lemma MaskedArith(v: int, m: int, r: int, above: int, carry: int)
    requires 0 <= v < B256 && 0 <= r < B256 && carry >= 0 && above == if v >= L then 1 else 0
    requires m == (if above == 1 then B256 - 1 - L else 0) && r + carry * B256 == v + m + above
    ensures r == if v >= L then v - L else v
  {
  }

  // ---------- Barrett reduction ----------

  const BARRETT: seq<u32> := [0x0a2c131b, 0xed9ce5a3, 0x086329a7, 0x2106215d, 0xffffffeb,
                              0xffffffff, 0xffffffff, 0xffffffff, 0xf]

  /** The Barrett constant is the quotient of 2^512 by L. */
  lemma BarrettConstant()
    ensures Limbs(BARRETT) == B256 * B256 / L
    ensures Limbs(BARRETT) == 0xf_ffffffff_ffffffff_ffffffff_ffffffeb_2106215d_086329a7_ed9ce5a3_0a2c131b
  {
    assert BARRETT == BARRETT[..8] + [0xf];
    LimbsSnoc(BARRETT[..8], 0xf);
    Limbs8(BARRETT[..8]);
    PowLimbs();
  }

  /** The Barrett quotient is at most one too small. */
  lemma BarrettBound(x: int, q: int)
    requires 0 <= x < 0x1_00000000_00000000_00000000_00000000_00000000_00000000_00000000_00000000_00000000_00000000_00000000_00000000_00000000_00000000_00000000_00000000
    requires 0 <= 0xf_ffffffff_ffffffff_ffffffff_ffffffeb_2106215d_086329a7_ed9ce5a3_0a2c131b * x
                  - 0x1_00000000_00000000_00000000_00000000_00000000_00000000_00000000_00000000_00000000_00000000_00000000_00000000_00000000_00000000_00000000_00000000 * q
               < 0x1_00000000_00000000_00000000_00000000_00000000_00000000_00000000_00000000_00000000_00000000_00000000_00000000_00000000_00000000_00000000_00000000
    ensures 0 <= x - q * 0x10000000_00000000_00000000_00000000_14def9de_a2f79cd6_5812631a_5cf5d3ed
              < 2 * 0x10000000_00000000_00000000_00000000_14def9de_a2f79cd6_5812631a_5cf5d3ed
  {
  }

  /** The low half of x - qL is all of it. */
  lemma BarrettRemainder(x: int, lo: int, hi: int, q: int, qlo: int, qhi: int, y: int, m: int, z: int, c: int)
    requires x == lo + hi * B256 && q == qlo + qhi * B256
    requires qlo * L == y + m * B256 && z + c * B256 == lo + (B256 - 1 - y) + 1
    requires 0 <= z < B256 && 0 <= x - q * L < 2 * L
    ensures z == x - q * L
  {
    var k := hi - m - qhi * L - 1 + c;
    assert x - q * L == z + k * B256;
  }

  lemma ModLUnique(x: int, q: int, v: int, r: int)
    requires v == x - q * L && 0 <= v < 2 * L && r == if v >= L then v - L else v
    ensures r == ModL(x)
  {
    ModUnique(x, if v >= L then q + 1 else q, L, r);
  }

  lemma Split(s: seq<u32>, n: nat)
    requires n <= |s|
    ensures Limbs(s) == Limbs(s[..n]) + Pow(0x1_0000_0000, n) * Limbs(s[n..])
  {
    assert s == s[..n] + s[n..];
    LimbsAppend(s[..n], s[n..]);
  }

  lemma QuotientBound(xr: seq<u32>, x: seq<u32>)
    requires |xr| == 25 && |x| == 16
    requires Limbs(xr) == Limbs(BARRETT) * Limbs(x)
    ensures 0 <= Limbs(x) - Limbs(xr[16..]) * L < 2 * L
  {
    Split(xr, 16);
    Below512(xr[..16]);
    Below512(x);
    BarrettConstant();
    BarrettBound(Limbs(x), Limbs(xr[16..]));
  }

  lemma Below512(s: seq<u32>)
    requires |s| == 16
    ensures Pow(0x1_0000_0000, 16) == B256 * B256 && 0 <= Limbs(s) < B256 * B256
  {
    NumBound(s, 0x1_0000_0000);
    PowLimbs();
    PowAdd(0x1_0000_0000, 8, 8);
  }

  /** x * floor(2^512 / L), whose limbs from 16 on are the approximate quotient. */
  method Quotient(xr: array<u32>, x: array<u32>)
    requires xr.Length == 25 && x.Length == 16 && xr != x
    requires forall i :: 0 <= i < 25 ==> xr[i] == 0
    modifies xr
    ensures 0 <= Limbs(x[..]) - Limbs(xr[16..]) * L < 2 * L
  {
    assert xr[..16] == seq(16, _ => 0);
    NumZeros(16, 0x1_0000_0000);
    Product(xr, BARRETT, x[..]);
    QuotientBound(xr[..], x[..]);
    assert xr[..][16..] == xr[16..];
  }

  lemma RemainderLimbs(x: seq<u32>, q: seq<u32>, y: seq<u32>, z: seq<u32>, c: int)
    requires |x| == 16 && |q| == 9 && |y| == 8 && |z| == 8
    requires 0 <= Limbs(x) - Limbs(q) * L < 2 * L
    requires Limbs(y) == Mod256(Limbs(q[..8]) * Limbs(LLIMBS))
    requires Limbs(z) + c * Pow(0x1_0000_0000, 8) == Limbs(x[..8]) + Limbs(Complement(y)) + 1
    ensures Limbs(z) == Limbs(x) - Limbs(q) * L
  {
    Split(x, 8);
    Split(q, 8);
    NumBound(z, 0x1_0000_0000);
    PowLimbs();
    LValue();
    ComplementLimbs(y);
    BarrettRemainder(Limbs(x), Limbs(x[..8]), Limbs(x[8..]), Limbs(q), Limbs(q[..8]), Limbs(q[8..]), Limbs(y),
                     (Limbs(q[..8]) * L) / B256, Limbs(z), c);
  }

  /** Overwrites the low limbs of xr with x - qL, computed modulo 2^256 only. */
  method Subtract(xr: array<u32>, x: array<u32>)
    requires xr.Length == 25 && x.Length == 16 && xr != x
    requires 0 <= Limbs(x[..]) - Limbs(xr[16..]) * L < 2 * L
    modifies xr
    ensures Limbs(xr[..8]) == Limbs(x[..]) - old(Limbs(xr[16..])) * L
  {
    ghost var q := xr[16..];
    for i := 0 to 8
      invariant forall j :: 0 <= j < i ==> xr[j] == 0
      invariant xr[16..] == q
    {
      xr[i] := 0;
    }
    assert xr[16..24] == q[..8];
    LowProduct(xr, xr[16..24], LLIMBS);
    ghost var y := xr[..8];
    var carry := AddLimbs(xr, x, 0, Complement(xr[..8]), 1);
    assert x[..][..8] == x[0..8];
    RemainderLimbs(x[..], q, y, xr[..8], carry);
  }

  /** Full reduction modulo L: the Barrett quotient, then one conditional subtraction. */
  method Reduce(x: array<u32>) returns (r: seq<u32>)
    requires x.Length == 16
    ensures |r| == 8 && Limbs(r) == ModL(Limbs(x[..]))
  {
    var xr := new u32[25](_ => 0);
    Quotient(xr, x);
    ghost var q := Limbs(xr[16..]);
    Subtract(xr, x);
    ghost var v := Limbs(xr[..8]);
    assert xr[0..8] == xr[..8];
    RemoveL(xr, xr, 0);
    r := xr[..8];
    ModLUnique(Limbs(x[..]), q, v, Limbs(r));
  }

  // ---------- Montgomery reduction ----------

  const MONTGOMERY: seq<u32> := [0x12547e1b, 0xd2b51da3, 0xfdba84ff, 0xb1a206f2,
                                 0xffa36bea, 0x14e75438, 0x6fe91836, 0x9db6c6f2]

  const KMONT: int := 0x9db6c6f2_6fe91836_14e75438_ffa36bea_b1a206f2_fdba84ff_d2b51da3_12547e1b

  /** The Montgomery constant k satisfies k * L = -1 modulo 2^256. */
  lemma MontgomeryConstant()
    ensures Limbs(MONTGOMERY) == KMONT && (KMONT * L + 1) % B256 == 0
  {
    Limbs8(MONTGOMERY);
  }

  /** x + sL is divisible by 2^256, and the quotient is below 2L. */
  lemma MontgomeryQuotient(x: int, lo: int, hi: int, s: int, m: int, tlo: int, w: int)
    requires x == lo + hi * B256 && 0 <= lo && 0 <= x < L * B256
    requires lo * KMONT == s + m * B256 && 0 <= s < B256
    requires s * L + x == tlo + w * B256 && 0 <= tlo < B256
    ensures tlo == 0 && 0 <= w < 2 * L
  {
    var c := (KMONT * L + 1) / B256;
    assert KMONT * L + 1 == c * B256;
    assert tlo == (lo * c - m * L + hi - w) * B256;
  }

  lemma MontgomeryResult(x: int, s: int, w: int, v: int)
    requires s * L + x == w * B256 && 0 <= w < 2 * L && v == if w >= L then w - L else w
    ensures 0 <= v < L && ModL(v * B256) == ModL(x)
  {
    var e := if w >= L then 1 else 0;
    assert v * B256 == x + (s - e * B256) * L;
    ModShift(x, s - e * B256, L);
  }

  lemma MontgomeryLimbs(x: seq<u32>, s: seq<u32>, t: seq<u32>, c: int)
    requires |x| == 16 && |s| == 8 && |t| == 16 && c >= 0 && Limbs(x) < L * B256
    requires Limbs(s) == Mod256(Limbs(x[..8]) * Limbs(MONTGOMERY))
    requires Limbs(t) + c * Pow(0x1_0000_0000, 16) == Limbs(s) * Limbs(LLIMBS) + Limbs(x)
    ensures Limbs(s) * L + Limbs(x) == Limbs(t[8..]) * B256 && 0 <= Limbs(t[8..]) < 2 * L
  {
    Halved(x);
    Halved(t);
    EightLimbs(s);
    SixteenLimbs();
    LValue();
    MontgomeryConstant();
    MontgomeryHalves(Limbs(x), Limbs(x[..8]), Limbs(x[8..]), Limbs(s), Limbs(t), Limbs(t[..8]), Limbs(t[8..]), c);
  }

  lemma MontgomeryHalves(x: int, lo: int, hi: int, s: int, t: int, tlo: int, thi: int, c: int)
    requires x == lo + hi * B256 && 0 <= lo && 0 <= x < L * B256 && c >= 0
    requires s == Mod256(lo * KMONT) && 0 <= s < B256
    requires t + c * (B256 * B256) == s * L + x && t == tlo + thi * B256 && 0 <= tlo < B256 && 0 <= thi < B256
    ensures s * L + x == thi * B256 && 0 <= thi < 2 * L
  {
    assert c * (B256 * B256) == (c * B256) * B256;
    MontgomeryQuotient(x, lo, hi, s, (lo * KMONT) / B256, tlo, thi + c * B256);
    MulAtLeast(c, B256);
  }

  lemma EightLimbs(s: seq<u32>)
    requires |s| == 8
    ensures 0 <= Limbs(s) < B256
  {
    NumBound(s, 0x1_0000_0000);
    PowLimbs();
  }

  lemma SixteenLimbs()
    ensures Pow(0x1_0000_0000, 16) == B256 * B256
  {
    PowLimbs();
    PowAdd(0x1_0000_0000, 8, 8);
  }

  lemma Halved(x: seq<u32>)
    requires |x| == 16
    ensures Limbs(x) == Limbs(x[..8]) + Limbs(x[8..]) * B256
    ensures 0 <= Limbs(x[..8]) < B256 && 0 <= Limbs(x[8..]) < B256
  {
    Split(x, 8);
    NumBound(x[..8], 0x1_0000_0000);
    NumBound(x[8..], 0x1_0000_0000);
    PowLimbs();
  }

  /** x plus the multiple of L that clears its low half. */
  method ClearLow(t: array<u32>, x: array<u32>) returns (ghost s: int)
    requires t.Length == 16 && x.Length == 16 && t != x && t[..8] == seq(8, _ => 0)
    requires Limbs(x[..]) < L * B256
    modifies t
    ensures s * L + Limbs(x[..]) == Limbs(t[8..16]) * B256 && 0 <= Limbs(t[8..16]) < 2 * L
  {
    var q := new u32[8](_ => 0);
    LowProduct(q, x[..8], MONTGOMERY);
    NumZeros(8, 0x1_0000_0000);
    Product(t, q[..], LLIMBS);
    assert t[0..16] == t[..] && q[..8] == q[..];
    var carry := AddLimbs(t, t, 0, x[..], 0);
    assert t[..16] == t[..] && x[..][..8] == x[..8];
    MontgomeryLimbs(x[..], q[..], t[..], carry);
    assert t[8..16] == t[..][8..];
    s := Limbs(q[..]);
  }

  /** Divides x by 2^256 modulo L. */
  method Redc(u: array<u32>, x: array<u32>)
    requires u.Length == 8 && x.Length == 16 && u != x
    requires Limbs(x[..]) < L * B256
    modifies u
    ensures 0 <= Limbs(u[..]) < L && ModL(Limbs(u[..]) * B256) == ModL(Limbs(x[..]))
  {
    var t := new u32[16](_ => 0);
    assert t[..8] == seq(8, _ => 0);
    ghost var s := ClearLow(t, x);
    RemoveL(u, t, 8);
    assert u[..8] == u[..];
    MontgomeryResult(Limbs(x[..]), s, Limbs(t[8..16]), Limbs(u[..]));
  }

  // ---------- Scalars as bytes ----------

  /** a * b + c modulo L. */
  method MulAddScalars(a: seq<u8>, b: seq<u8>, c: seq<u8>) returns (r: seq<u8>)
    requires |a| == 32 && |b| == 32 && |c| == 32
    ensures |r| == 32 && Le(r) == ModL(Le(a) * Le(b) + Le(c))
  {
    var p := new u32[16](_ => 0);
    var c32 := LoadAll(c);
    for i := 0 to 8
      invariant p[..i] == c32[..i]
    {
      p[i] := c32[i];
    }
    LoadValue(a);
    LoadValue(b);
    LoadValue(c);
    assert p[..8] == c32;
    Product(p, LoadAll(a), LoadAll(b));
    var limbs := Reduce(p);
    StoreValue(limbs);
    r := StoreAll(limbs);
  }

  // ---------- Inversion ----------

  const RINV: int := 0x9db6c6f26fe9183614e75438ffa36beb7f5c66a973f754cc766cca43d5f0d24

  lemma MontgomeryProductArith(u: int, a: int, b: int, x: int, y: int, k1: int, k2: int, k3: int)
    requires a == B256 * x - k1 * L && b == B256 * y - k2 * L && u * B256 == a * b - k3 * L
    ensures exists k :: u == B256 * (x * y) + k * L
  {
    var k0 := KMONT;
    assert B256 * RINV == 1 + k0 * L;
    var m := k1 * (B256 * y) + k2 * (B256 * x) - k1 * k2 * L;
    assert a * b == B256 * B256 * (x * y) - L * m;
    assert u * (1 + k0 * L) == (B256 * B256 * (x * y) - L * m - k3 * L) * RINV;
    assert B256 * B256 * (x * y) * RINV == B256 * (x * y) * (1 + k0 * L);
    assert u == B256 * (x * y) + (B256 * (x * y) * k0 - m * RINV - k3 * RINV - u * k0) * L;
  }

  /** A Montgomery product of Montgomery forms is the Montgomery form of the product. */
  lemma MontgomeryProduct(u: int, a: int, b: int, x: int, y: int)
    requires 0 <= u < L && ModL(u * B256) == ModL(a * b)
    requires a == ModL(B256 * x) && b == ModL(B256 * y)
    ensures u == ModL(B256 * (x * y))
  {
    var k3 := (a * b) / L - (u * B256) / L;
    assert u * B256 == a * b - k3 * L;
    MontgomeryProductArith(u, a, b, x, y, (B256 * x) / L, (B256 * y) / L, k3);
    var k :| u == B256 * (x * y) + k * L;
    ModShift(B256 * (x * y), k, L);
    ModUnique(u, 0, L, u);
  }

  const LM2: seq<u8> := [
    0xeb, 0xd3, 0xf5, 0x5c, 0x1a, 0x63, 0x12, 0x58, 0xd6, 0x9c, 0xf7, 0xa2, 0xde, 0xf9, 0xde, 0x14,
    0, 0, 0, 0, 0, 0, 0, 0, 0, 0, 0, 0, 0, 0, 0, 0x10]

  const MONTGOMERY_ONE: seq<u32> := [0x8d98951d, 0xd6ec3174, 0x737dcf70, 0xc6ef5bf4,
                                     0xfffffffe, 0xffffffff, 0xffffffff, 0x0fffffff]

  lemma ExponentLowest(s: seq<u8>)
    requires s == LM2
    ensures Load32(s, 0) == 0x5cf5d3eb && Load32(s, 4) == 0x5812631a
  {
  }

  lemma ExponentLow(s: seq<u8>)
    requires s == LM2
    ensures Load32(s, 8) == 0xa2f79cd6 && Load32(s, 12) == 0x14def9de
  {
  }

  lemma ExponentHigh(s: seq<u8>)
    requires s == LM2
    ensures Load32(s, 16) == 0 && Load32(s, 20) == 0 && Load32(s, 24) == 0 && Load32(s, 28) == 0x10000000
  {
  }

  lemma LMinusTwo(w: seq<u32>)
    requires w == [0x5cf5d3eb, 0x5812631a, 0xa2f79cd6, 0x14def9de, 0, 0, 0, 0x10000000]
    ensures Limbs(w) == L - 2
  {
    Limbs8(w);
  }

  lemma EightWords(s: seq<u8>, bottom: nat, w: seq<u32>)
    requires |s| == 32 && bottom == 0
    requires w == [Load32(s, 0), Load32(s, 4), Load32(s, 8), Load32(s, 12), Load32(s, 16), Load32(s, 20), Load32(s, 24),
             Load32(s, 28)]
    ensures High(s, bottom) == Limbs(w)
  {
    HighBytes(s, bottom);
    assert s[bottom..] == s;
    LoadValue(s);
    LoadEight(s);
  }

  /** The exponent table spells L - 2, in 253 bits. */
  lemma ExponentValue(s: seq<u8>, bottom: nat, top: nat)
    requires s == LM2 && bottom == 0 && top == 253
    ensures High(s, bottom) == L - 2 && High(s, top) == 0
  {
    ExponentLowest(s);
    ExponentLow(s);
    ExponentHigh(s);
    var w := [0x5cf5d3eb, 0x5812631a, 0xa2f79cd6, 0x14def9de, 0, 0, 0, 0x10000000];
    EightWords(s, bottom, w);
    LMinusTwo(w);
    HighByte(s, 31, 5, 0);
    assert Half(16, 3) == 2;
  }

  lemma MontgomeryOne()
    ensures Limbs(MONTGOMERY_ONE) == ModL(B256 * 1)
  {
    Limbs8(MONTGOMERY_ONE);
    assert Limbs(MONTGOMERY_ONE) == 0xffffffffffffffffffffffffffffffec6ef5bf4737dcf70d6ec31748d98951d;
    assert B256 * 1 == 15 * L + 0xffffffffffffffffffffffffffffffec6ef5bf4737dcf70d6ec31748d98951d;
  }

  /** A key with the bits fixed that scalar multiplication fixes. */
  function Trim(key: seq<u8>): (r: seq<u8>)
    requires |key| == 32
    ensures |r| == 32
  {
    [key[0] - key[0] % 8] + key[1..31] + [key[31] % 64 + 64]
  }

  /** s is the key with its bits 0, 1, 2 and 255 cleared and its bit 254 set. */
  ghost predicate IsTrimmed(s: seq<u8>, key: seq<u8>)
    requires |key| == 32
  {
    |s| == 32 && forall i :: 0 <= i < 256 ==>
      ScalarBit(s, i) == if i < 3 || i == 255 then 0 else if i == 254 then 1 else ScalarBit(key, i)
  }

  lemma {:induction false} SameHalves(b: u8, c: u8, i: nat, j: nat)
    requires i <= j && Half(b, i) == Half(c, i)
    ensures Half(b, j) == Half(c, j)
  {
    if i < j { SameHalves(b, c, i, j - 1); }
  }

  lemma LowByte(b: u8, j: nat)
    requires j <= 7
    ensures Half(b - b % 8, j) % 2 == if j < 3 then 0 else Half(b, j) % 2
  {
    var c: u8, q: u8 := b - b % 8, b / 8;
    assert c == 8 * q && Half(c, 1) == 4 * q && Half(c, 2) == 2 * q && Half(c, 3) == q;
    Eighth(b);
    if j >= 3 { SameHalves(b, c, 3, j); }
  }

  lemma Eighth(b: u8)
    ensures Half(b, 3) == b / 8
  {
    var h: u8 := b / 2;
    assert Half(b, 1) == h && Half(b, 2) == h / 2 && Half(b, 3) == h / 2 / 2;
    assert h / 2 == b / 4;
  }

  lemma HalfTop(x: int, y: int, q: int)
    requires q > 0 && x == y % (2 * q) + 2 * q
    ensures x / 2 == y / 2 % q + q && x % 2 == y % 2
  {
    var k, r := y / (2 * q), y % (2 * q);
    Assoc(2, q, k);
    assert y == 2 * (q * k) + r;
    ModUnique(y / 2, k, q, r / 2);
  }

  lemma {:induction false} TopHalf(b: u8, j: nat)
    requires j <= 6
    ensures var p := Pow(2, 6 - j); p > 0 && Half(b % 64 + 64, j) == Half(b, j) % p + p
  {
    if j == 0 {
      assert Pow(2, 2) == 4 && Pow(2, 4) == 16;
    } else {
      TopHalf(b, j - 1);
      PowPos(2, 6 - j);
      HalfTop(Half(b % 64 + 64, j - 1), Half(b, j - 1), Pow(2, 6 - j));
    }
  }

  lemma TopByte(b: u8, j: nat)
    requires j <= 7
    ensures Half(b % 64 + 64, j) % 2 == if j == 7 then 0 else if j == 6 then 1 else Half(b, j) % 2
  {
    if j < 6 {
      TopHalf(b, j);
      PowPos(2, 5 - j);
      HalfTop(Half(b % 64 + 64, j), Half(b, j), Pow(2, 5 - j));
    } else {
      TopHalf(b, 6);
    }
  }

  lemma TrimBits(key: seq<u8>)
    requires |key| == 32
    ensures IsTrimmed(Trim(key), key)
  {
    var s := Trim(key);
    forall i | 0 <= i < 256
      ensures ScalarBit(s, i) == if i < 3 || i == 255 then 0 else if i == 254 then 1 else ScalarBit(key, i)
    {
      if i / 8 == 0 { LowByte(key[0], i % 8); }
      if i / 8 == 31 { TopByte(key[31], i % 8); }
    }
  }

  /** The bits say which scalar it is. */
  lemma BitsDecide(s: seq<u8>, s': seq<u8>)
    requires |s| == 32 && |s'| == 32 && forall i :: 0 <= i < 256 ==> ScalarBit(s, i) == ScalarBit(s', i)
    ensures s == s'
  {
    forall k | 0 <= k < 32 ensures s[k] == s'[k] {
      forall j: nat | j <= 7 ensures Half(s[k], j) % 2 == Half(s'[k], j) % 2 {
        BitAt(s, k, j);
        BitAt(s', k, j);
        assert ScalarBit(s, 8 * k + j) == ScalarBit(s', 8 * k + j);
      }
      SameByte(s[k], s'[k], 0);
    }
  }

  lemma {:induction false} SameByte(b: u8, c: u8, j: nat)
    requires j <= 8 && forall i: nat :: j <= i <= 7 ==> Half(b, i) % 2 == Half(c, i) % 2
    ensures Half(b, j) == Half(c, j)
    decreases 8 - j
  {
    if j == 8 {
      Halves(b);
      Halves(c);
    } else {
      SameByte(b, c, j + 1);
      HalfStep(b, j);
      HalfStep(c, j);
    }
  }

  /** m := m * b / 2^256 modulo L. */
  method MontgomeryMul(m: array<u32>, b: seq<u32>, ghost x: int, ghost y: int)
    requires m.Length == 8 && |b| == 8
    requires Limbs(m[..]) == ModL(B256 * x) && Limbs(b) == ModL(B256 * y)
    modifies m
    ensures Limbs(m[..]) == ModL(B256 * (x * y))
  {
    var product := new u32[16](_ => 0);
    assert product[..8] == seq(8, _ => 0);
    NumZeros(8, 0x1_0000_0000);
    ghost var a := Limbs(m[..]);
    MulBound(a, L, Limbs(b), L);
    Product(product, m[..], b);
    Redc(m, product);
    MontgomeryProduct(Limbs(m[..]), a, Limbs(b), x, y);
  }

  lemma {:induction false} PowDouble(s: int, e: nat)
    ensures Pow(s, 2 * e) == Pow(s, e) * Pow(s, e) && Pow(s, 2 * e + 1) == Pow(s, 2 * e) * s
  {
    PowAdd(s, e, e);
  }

  lemma {:induction false} HighNonNegative(s: seq<u8>, i: nat)
    requires |s| == 32 && i <= 256
    ensures High(s, i) >= 0
    decreases 256 - i
  {
    if i < 256 { HighNonNegative(s, i + 1); }
  }

  /** Square-and-multiply over the bits of a 253-bit exponent, in Montgomery form. */
  method Exponentiate(m: array<u32>, scl: seq<u32>, e: seq<u8>, ghost x: int, ghost bottom: nat, ghost top: nat)
    requires m.Length == 8 && |scl| == 8 && |e| == 32 && bottom == 0 && top == 253
    requires Limbs(m[..]) == ModL(B256 * 1) && Limbs(scl) == ModL(B256 * x) && High(e, top) == 0
    modifies m
    ensures High(e, bottom) >= 0 && Limbs(m[..]) == ModL(B256 * Pow(x, High(e, bottom)))
  {
    var i := 252;
    while i >= 0
      invariant -1 <= i <= 252
      invariant High(e, i + 1) >= 0
      invariant Limbs(m[..]) == ModL(B256 * Pow(x, High(e, i + 1)))
    {
      SquareAndMultiply(m, scl, ScalarBit(e, i), x, High(e, i + 1));
      i := i - 1;
    }
  }

  /** One bit of the exponent. */
  method SquareAndMultiply(m: array<u32>, scl: seq<u32>, bit: int, ghost x: int, ghost n: nat)
    requires m.Length == 8 && |scl| == 8 && 0 <= bit <= 1
    requires Limbs(m[..]) == ModL(B256 * Pow(x, n)) && Limbs(scl) == ModL(B256 * x)
    modifies m
    ensures Limbs(m[..]) == ModL(B256 * Pow(x, 2 * n + bit))
  {
    PowDouble(x, n);
    MontgomeryMul(m, m[..], Pow(x, n), Pow(x, n));
    if bit == 1 {
      MontgomeryMul(m, scl, Pow(x, 2 * n), x);
    }
  }

  /** The Montgomery form of a scalar. */
  method ToMontgomery(scalar: seq<u32>) returns (scl: seq<u32>)
    requires |scalar| == 8
    ensures |scl| == 8 && Limbs(scl) == ModL(B256 * Limbs(scalar))
  {
    var tmp := new u32[16](_ => 0);
    for i := 0 to 8
      invariant tmp[..8] == seq(8, _ => 0) && tmp[8..8 + i] == scalar[..i]
    {
      tmp[8 + i] := scalar[i];
    }
    assert tmp[..][8..] == tmp[8..16] == scalar[..8] == scalar && tmp[..][..8] == tmp[..8];
    ShiftedLimbs(tmp[..], scalar);
    scl := Reduce(tmp);
  }

  method FromMontgomery(m: array<u32>, ghost y: int)
    requires m.Length == 8 && Limbs(m[..]) == ModL(B256 * y)
    modifies m
    ensures Limbs(m[..]) == ModL(y)
  {
    var product := new u32[16](_ => 0);
    for i := 0 to 8
      invariant m[..] == old(m[..])
      invariant product[..i] == m[..i] && product[8..] == seq(8, _ => 0)
    {
      product[i] := m[i];
    }
    assert product[..][..8] == m[..];
    LowLimbs(product[..]);
    Redc(m, product);
    MontgomeryOut(Limbs(m[..]), y);
  }

  /** A trimmed key is a multiple of 8 between 1 and 2^255. */
  lemma TrimmedRange(key: seq<u8>)
    requires |key| == 32
    ensures 0 < Le(Trim(key)) < 8 * L && Le(Trim(key)) % 8 == 0
  {
    var r := Trim(key);
    LoadValue(r);
    LoadAt(r, 7);
    Below255(LoadAll(r));
    assert Le(r) == 8 * (r[0] / 8 + 32 * Num(r[1..], 256));
  }

  lemma Below255(s: seq<u32>)
    requires |s| == 8 && 0 < s[7] < 0x80000000
    ensures 0 < Limbs(s) < 8 * L
  {
    Limbs8(s);
  }

  /** L is odd, so no multiple of it below 8 * L is one of 8. */
  lemma TrimmedNotZero(t: int)
    requires 0 < t < 8 * L && t % 8 == 0
    ensures t % L != 0
  {
    var k := t / L;
    if t % L == 0 {
      assert t == k * L;
      MulAtLeast(k, L);
      MulAtLeast(k - 7, L);
    }
  }

  /** The power L - 2 of a trimmed key is its inverse, for L is prime. */
  lemma TrimmedInverse(t: int, y: int)
    requires 0 < t < 8 * L && t % 8 == 0 && y == ModL(Pow(t, L - 2))
    ensures ModL(t * y) == 1
  {
    OrderPrime.Prime253();
    TrimmedNotZero(t);
    Primality.Fermat(L, t);
    ModMul(Pow(t, L - 2), t, L);
    Commute(t, y);
    Commute(t, Pow(t, L - 2));
  }

  /** The inverse of a trimmed private key modulo L, as its (L-2)-th power. */
  method InvertScalar(key: seq<u8>) returns (inverse: seq<u8>)
    requires |key| == 32
    ensures var s := Trim(key);
            IsTrimmed(s, key) && |inverse| == 32 && Le(inverse) == ModL(Pow(Le(s), L - 2))
            && ModL(Le(s) * Le(inverse)) == 1
  {
    TrimBits(key);
    var scalar, e, one := Trim(key), LM2, MONTGOMERY_ONE;
    LoadValue(scalar);
    var scl := ToMontgomery(LoadAll(scalar));
    var m := new u32[8](i requires 0 <= i < 8 => one[i]);
    assert m[..] == one;
    MontgomeryOne();
    ExponentValue(e, 0, 253);
    Exponentiate(m, scl, e, Le(scalar), 0, 253);
    FromMontgomery(m, Pow(Le(scalar), L - 2));
    StoreValue(m[..]);
    inverse := StoreAll(m[..]);
    TrimmedRange(key);
    TrimmedInverse(Le(scalar), Le(inverse));
  }

  lemma ShiftedLimbs(t: seq<u32>, s: seq<u32>)
    requires |t| == 16 && t[..8] == seq(8, _ => 0) && t[8..] == s
    ensures Limbs(t) == B256 * Limbs(s)
  {
    Halved(t);
    NumZeros(8, 0x1_0000_0000);
  }

  lemma LowLimbs(t: seq<u32>)
    requires |t| == 16 && t[8..] == seq(8, _ => 0)
    ensures Limbs(t) == Limbs(t[..8]) && Limbs(t) < B256
  {
    Halved(t);
    NumZeros(8, 0x1_0000_0000);
  }

  lemma MontgomeryOut(u: int, y: int)
    requires 0 <= u < L && ModL(u * B256) == ModL(ModL(B256 * y))
    ensures u == ModL(y)
  {
    var k := (B256 * y) / L - (u * B256) / L;
    assert u * B256 == B256 * y - k * L;
    assert B256 * RINV == 1 + KMONT * L;
    assert u == y + (y * KMONT - k * RINV - u * KMONT) * L;
    ModShift(y, y * KMONT - k * RINV - u * KMONT, L);
    ModUnique(u, 0, L, u);
  }
}
