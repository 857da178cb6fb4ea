/** Machine words as bounded integers, and little-endian numbers over them.

    A local variable of type `u32` or `u64` carries the proof obligation that
    the value assigned to it fits, so a C expression written with these types
    is proved free of overflow.  Where the C code relies on wrap-around or on a
    truncating cast, the model writes the `%` out. */
module Words {
  type u8 = x: int | 0 <= x < 0x100
  type u32 = x: int | 0 <= x < 0x1_0000_0000
  type u64 = x: int | 0 <= x < 0x1_0000_0000_0000_0000
  type i32 = x: int | -0x8000_0000 <= x < 0x8000_0000
  type i64 = x: int | -0x8000_0000_0000_0000 <= x < 0x8000_0000_0000_0000

  function Pow(b: int, n: nat): int {
    if n == 0 then 1 else b * Pow(b, n - 1)
  }

  /** The number whose little-endian digits in base b are s. */
  function Num(s: seq<int>, b: int): int {
    if s == [] then 0 else s[0] + b * Num(s[1..], b)
  }

  /** The number a little-endian byte string denotes. */
  function Le(s: seq<u8>): int { Num(s, 256) }

  /** The number an array of 32-bit limbs denotes. */
  function Limbs(s: seq<u32>): int { Num(s, 0x1_0000_0000) }

  function Load32(s: seq<u8>, k: nat): (r: u32)
    requires k + 4 <= |s|
  {
    var a: int, b: int, c: int, d: int := s[k], s[k + 1], s[k + 2], s[k + 3];
    a + 0x100 * b + 0x1_0000 * c + 0x100_0000 * d
  }

  function Store32(x: u32): (r: seq<u8>)
    ensures |r| == 4
    ensures Load32(r, 0) == x
  {
    var a: int := x / 0x100;
    var b: int := a / 0x100;
    [x % 0x100, a % 0x100, b % 0x100, b / 0x100]
  }

  lemma {:induction false} PowAdd(b: int, m: nat, n: nat)
    ensures Pow(b, m + n) == Pow(b, m) * Pow(b, n)
  {
    if m != 0 {
      PowAdd(b, m - 1, n);
      Assoc(b, Pow(b, m - 1), Pow(b, n));
    }
  }

  lemma Assoc(x: int, y: int, z: int)
    ensures (x * y) * z == x * (y * z)
  {
  }

  lemma {:induction false} PowPos(b: int, n: nat)
    requires b > 0
    ensures Pow(b, n) > 0
  {
    if n != 0 { PowPos(b, n - 1); }
  }

  lemma {:induction false} NumAppend(s: seq<int>, t: seq<int>, b: int)
    ensures Num(s + t, b) == Num(s, b) + Pow(b, |s|) * Num(t, b)
  {
    if s == [] {
      assert s + t == t;
    } else {
      assert (s + t)[1..] == s[1..] + t;
      NumAppend(s[1..], t, b);
      var p, n := Pow(b, |s| - 1), Num(t, b);
      assert b * (Num(s[1..], b) + p * n) == b * Num(s[1..], b) + (b * p) * n by { Assoc(b, p, n); }
    }
  }

  lemma {:induction false} NumSnoc(s: seq<int>, d: int, b: int)
    ensures Num(s + [d], b) == Num(s, b) + Pow(b, |s|) * d
  {
    NumAppend(s, [d], b);
    assert [d][1..] == [];
    assert Num([d], b) == d + b * Num([], b) == d;
  }

  lemma DigitBound(d: int, n: int, p: int, b: int)
    requires 0 <= d < b && 0 <= n < p
    ensures 0 <= d + b * n < b * p
  {
    assert b * n <= b * (p - 1);
    assert b * (p - 1) == b * p - b;
  }

  /** Digits below the base denote a number below b^|s|. */
  lemma {:induction false} NumBound(s: seq<int>, b: int)
    requires b > 0
    requires forall i :: 0 <= i < |s| ==> 0 <= s[i] < b
    ensures 0 <= Num(s, b) < Pow(b, |s|)
  {
    if s != [] {
      NumBound(s[1..], b);
      DigitBound(s[0], Num(s[1..], b), Pow(b, |s| - 1), b);
    }
  }

  lemma {:induction false} NumZeros(n: nat, b: int)
    ensures Num(seq(n, _ => 0), b) == 0
  {
    if n != 0 {
      assert seq(n, _ => 0)[1..] == seq(n - 1, _ => 0);
      NumZeros(n - 1, b);
    }
  }

  /** Four bytes are one 32-bit limb. */
  lemma {:induction false} LeLoad32(s: seq<u8>)
    requires |s| >= 4
    ensures Le(s) == Load32(s, 0) + 0x1_0000_0000 * Le(s[4..])
  {
    var a, b, c, d := s[1..], s[2..], s[3..], s[4..];
    assert a[1..] == b && b[1..] == c && c[1..] == d;
    assert Le(s) == s[0] + 0x100 * Le(a);
    assert Le(a) == s[1] + 0x100 * Le(b);
    assert Le(b) == s[2] + 0x100 * Le(c);
    assert Le(c) == s[3] + 0x100 * Le(d);
  }

  lemma MulBound(a: int, aMax: int, b: int, bMax: int)
    requires 0 <= a <= aMax && 0 <= b <= bMax
    ensures 0 <= a * b <= aMax * bMax
  {
    assert a * b <= a * bMax;
    assert a * bMax <= aMax * bMax;
  }

  lemma MulAtLeast(k: int, m: int)
    requires m > 0
    ensures k >= 1 ==> k * m >= m
    ensures k <= -1 ==> k * m <= -m
  {
    assert k >= 1 ==> (k - 1) * m >= 0;
    assert k <= -1 ==> (-1 - k) * m >= 0;
  }

  /** x = q*m + r with r in range determines r as the residue. */
  lemma ModUnique(x: int, q: int, m: int, r: int)
    requires m > 0 && 0 <= r < m && x == q * m + r
    ensures x % m == r && x / m == q
  {
    var q', r' := x / m, x % m;
    assert x == q' * m + r';
    assert (q - q') * m == q * m - q' * m;
    MulAtLeast(q - q', m);
  }

  /** Multiples of m do not change the residue. */
  lemma ModShift(x: int, k: int, m: int)
    requires m > 0
    ensures (x + k * m) % m == x % m
  {
    var q, r := x / m, x % m;
    assert x + k * m == (q + k) * m + r;
    ModUnique(x + k * m, q + k, m, r);
  }

  /** Residues may be taken before multiplying. */
  lemma ModMul(a: int, b: int, m: int)
    requires m > 0
    ensures ((a % m) * b) % m == (a * b) % m
  {
    var q := a / m;
    assert a == (a % m) + q * m;
    assert a * b == (a % m) * b + (q * b) * m;
    ModShift((a % m) * b, q * b, m);
  }

  lemma ModProduct(a: int, b: int, m: int)
    requires m > 0
    ensures ((a % m) * (b % m)) % m == (a * b) % m
  {
    ModMul(a, b, m);
    ModMul(b, a % m, m);
    Commute(a % m, b);
    Commute(a % m, b % m);
  }

  lemma Commute(x: int, y: int)
    ensures x * y == y * x
  {
  }

  lemma ModAdd(a: int, b: int, m: int)
    requires m > 0
    ensures ((a % m) + b) % m == (a + b) % m
  {
    ModShift((a % m) + b, a / m, m);
  }

  /** One step of a carry chain: the running total x is split as low + carry * p, where p is the
      weight of the next limb.  Adding a limb d leaves digit e and carry c'. */
  lemma CarryStep(x: int, low: int, c: int, p: int, d: int, b: int, e: int, c': int)
    requires x == low + c * p && c + d == c' * b + e
    ensures x + p * d == (low + p * e) + c' * (b * p)
  {
    assert p * (c + d) == p * (c' * b + e);
    assert p * (c' * b) == c' * (b * p);
  }

  lemma Limbs4(s: seq<u32>)
    requires |s| == 4
    ensures Limbs(s) == s[0] as int + 0x1_0000_0000 * s[1] as int + 0x1_0000_0000_0000_0000 * s[2] as int
                        + 0x1_0000_0000_0000_0000_0000_0000 * s[3] as int
  {
    assert s[1..][1..] == s[2..] && s[2..][1..] == s[3..] && s[3..][1..] == [];
    assert Limbs(s) == s[0] + 0x1_0000_0000 * Limbs(s[1..]);
    assert Limbs(s[1..]) == s[1] + 0x1_0000_0000 * Limbs(s[2..]);
    assert Limbs(s[2..]) == s[2] + 0x1_0000_0000 * Limbs(s[3..]);
    assert Limbs(s[3..]) == s[3] + 0x1_0000_0000 * Limbs([]);
  }

  lemma PowLimbs()
    ensures Pow(0x1_0000_0000, 4) == 0x1_0000_0000_0000_0000_0000_0000_0000_0000
    ensures Pow(0x1_0000_0000, 8) == 0x1_00000000_00000000_00000000_00000000_00000000_00000000_00000000_00000000
  {
    assert Pow(0x1_0000_0000, 2) == 0x1_0000_0000_0000_0000;
    PowAdd(0x1_0000_0000, 2, 2);
    PowAdd(0x1_0000_0000, 4, 4);
  }

  /** The number eight limbs denote, spelled out. */
  lemma Limbs8(s: seq<u32>)
    requires |s| == 8
    ensures Limbs(s) == s[0] as int + 0x1_0000_0000 * s[1] as int + 0x1_0000_0000_0000_0000 * s[2] as int
                        + 0x1_0000_0000_0000_0000_0000_0000 * s[3] as int
                        + 0x1_0000_0000_0000_0000_0000_0000_0000_0000
                          * (s[4] as int + 0x1_0000_0000 * s[5] as int + 0x1_0000_0000_0000_0000 * s[6] as int
                             + 0x1_0000_0000_0000_0000_0000_0000 * s[7] as int)
  {
    assert s == s[..4] + s[4..];
    NumAppend(s[..4], s[4..], 0x1_0000_0000);
    Limbs4(s[..4]);
    Limbs4(s[4..]);
    PowLimbs();
  }

  lemma LimbsAppend(s: seq<u32>, t: seq<u32>)
    ensures Limbs(s + t) == Limbs(s) + Pow(0x1_0000_0000, |s|) * Limbs(t)
  {
    NumAppend(s, t, 0x1_0000_0000);
  }

  /** The limbs up to j, extended by the next one. */
  lemma LimbsNext(s: seq<u32>, j: nat)
    requires j < |s|
    ensures Limbs(s[..j + 1]) == Limbs(s[..j]) + Pow(0x1_0000_0000, j) * s[j]
  {
    assert s[..j + 1] == s[..j] + [s[j]];
    NumSnoc(s[..j], s[j], 0x1_0000_0000);
  }

  lemma LimbsSnoc(s: seq<u32>, d: u32)
    ensures Limbs(s + [d]) == Limbs(s) + Pow(0x1_0000_0000, |s|) * d
  {
    NumSnoc(s, d, 0x1_0000_0000);
  }

  /** Limbs written out as bytes, and read back. */
  function StoreAll(s: seq<u32>): (r: seq<u8>)
    ensures |r| == 4 * |s|
  {
    if s == [] then [] else Store32(s[0]) + StoreAll(s[1..])
  }

  lemma {:induction false} StoreValue(s: seq<u32>)
    ensures Le(StoreAll(s)) == Limbs(s)
  {
    if s != [] {
      var r := StoreAll(s);
      assert r[4..] == StoreAll(s[1..]) && r[..4] == Store32(s[0]);
      assert Load32(r, 0) == Load32(Store32(s[0]), 0);
      LeLoad32(r);
      StoreValue(s[1..]);
    }
  }

  function LoadAll(r: seq<u8>): (s: seq<u32>)
    requires |r| % 4 == 0
    ensures |s| == |r| / 4
  {
    if r == [] then [] else [Load32(r, 0)] + LoadAll(r[4..])
  }

  lemma {:induction false} LoadValue(r: seq<u8>)
    requires |r| % 4 == 0
    ensures Limbs(LoadAll(r)) == Le(r)
  {
    if r != [] {
      LeLoad32(r);
      LoadValue(r[4..]);
      assert LoadAll(r)[1..] == LoadAll(r[4..]);
    }
  }

  lemma LoadEight(r: seq<u8>)
    requires |r| == 32
    ensures LoadAll(r) == [Load32(r, 0), Load32(r, 4), Load32(r, 8), Load32(r, 12),
                           Load32(r, 16), Load32(r, 20), Load32(r, 24), Load32(r, 28)]
  {
    forall k: nat | k < 8 ensures LoadAll(r)[k] == Load32(r, 4 * k) { LoadAt(r, k); }
  }

  lemma {:induction false} LoadAt(r: seq<u8>, k: nat)
    requires |r| % 4 == 0 && k < |r| / 4
    ensures LoadAll(r)[k] == Load32(r, 4 * k)
  {
    if k != 0 { LoadAt(r[4..], k - 1); }
  }

  // ---------- Bitwise or ----------

  function Or(a: nat, b: nat): nat
    decreases a + b
  {
    if a == 0 && b == 0 then 0 else 2 * Or(a / 2, b / 2) + (if a % 2 == 1 || b % 2 == 1 then 1 else 0)
  }

  lemma {:induction false} OrZero(b: nat)
    ensures Or(0, b) == b
  {
    if b != 0 { OrZero(b / 2); }
  }

  /** Numbers without common bits: or is addition. */
  lemma {:induction false} OrDisjoint(a: nat, b: nat, k: nat)
    requires a < Pow(2, k)
    ensures b * Pow(2, k) >= 0 && Or(a, b * Pow(2, k)) == a + b * Pow(2, k)
  {
    PowPos(2, k);
    if k == 0 {
      OrZero(b);
    } else {
      OrDisjoint(a / 2, b, k - 1);
      ShiftHalf(b, k);
      if a == 0 { OrZero(b * Pow(2, k)); }
    }
  }

  lemma ShiftHalf(b: nat, k: nat)
    requires k > 0
    ensures b * Pow(2, k) == 2 * (b * Pow(2, k - 1))
  {
  }

  // ---------- Bits of a byte string ----------

  /** b >> j */
  function Half(b: u8, j: nat): u8 {
    if j == 0 then b else Half(b, j - 1) / 2
  }

  /** Bit i of a 32-byte number; positions below zero read as zero. */
  function ScalarBit(s: seq<u8>, i: int): (r: int)
    requires |s| == 32 && i < 256
    ensures 0 <= r <= 1
  {
    if i < 0 then 0 else Half(s[i / 8], i % 8) % 2
  }

  /** The number formed by bits i and up. */
  function High(s: seq<u8>, i: nat): int
    requires |s| == 32 && i <= 256
    decreases 256 - i
  {
    if i == 256 then 0 else 2 * High(s, i + 1) + ScalarBit(s, i)
  }

  lemma Halves(b: u8)
    ensures Half(b, 8) == 0
  {
    assert Half(b, 1) < 128 && Half(b, 2) < 64 && Half(b, 3) < 32;
    assert Half(b, 4) < 16 && Half(b, 5) < 8 && Half(b, 6) < 4 && Half(b, 7) < 2;
  }

  /** Bits j and up of byte k, above the bytes that follow it. */
  lemma {:induction false} HighByte(s: seq<u8>, k: nat, j: nat, x: int)
    requires |s| == 32 && k < 32 && j <= 7 && High(s, 8 * k + 8) == x
    ensures High(s, 8 * k + j) == Half(s[k], j) + Pow(2, 8 - j) * x
    decreases 7 - j
  {
    BitAt(s, k, j);
    HalfStep(s[k], j);
    var h1 := High(s, 8 * k + (j + 1));
    if j == 7 {
      Halves(s[k]);
      HighArith(High(s, 8 * k + j), h1, Half(s[k], j), 0, Half(s[k], j) % 2, Pow(2, 1), 1, x);
    } else {
      HighByte(s, k, j + 1, x);
      HighArith(High(s, 8 * k + j), h1, Half(s[k], j), Half(s[k], j + 1), Half(s[k], j) % 2, Pow(2, 8 - j),
        Pow(2, 7 - j), x);
    }
  }

  lemma HighArith(h: int, h1: int, half: int, half1: int, bit: int, p: int, p1: int, x: int)
    requires h == 2 * h1 + bit && h1 == half1 + p1 * x && half == 2 * half1 + bit && p == 2 * p1
    ensures h == half + p * x
  {
    Assoc(2, p1, x);
  }

  lemma BitAt(s: seq<u8>, k: nat, j: nat)
    requires |s| == 32 && k < 32 && j <= 7
    ensures ScalarBit(s, 8 * k + j) == Half(s[k], j) % 2
  {
    assert (8 * k + j) / 8 == k && (8 * k + j) % 8 == j;
  }

  lemma HalfStep(b: u8, j: nat)
    ensures Half(b, j) == 2 * Half(b, j + 1) + Half(b, j) % 2
  {
  }

  lemma {:induction false} HighBytes(s: seq<u8>, k: nat)
    requires |s| == 32 && k <= 32
    ensures High(s, 8 * k) == Le(s[k..])
    decreases 32 - k
  {
    if k < 32 {
      HighBytes(s, k + 1);
      HighByte(s, k, 0, Le(s[k + 1..]));
      assert Pow(2, 8) == 256;
      assert s[k..][1..] == s[k + 1..];
    }
  }
}
