/** Encoding of field elements and the Montgomery ladder of section 5 of RFC 7748. */
module X25519 {
  import opened Words
  import opened Field25519

  const TWO255: int := 0x8000000000000000000000000000000000000000000000000000000000000000

  // ---------- Decoding ----------

  function Load24(s: seq<u8>, k: nat): (r: u32)
    requires k + 3 <= |s|
  {
    var a: int, b: int, c: int := s[k], s[k + 1], s[k + 2];
    a + 0x100 * b + 0x1_0000 * c
  }

  lemma LeLoad24(s: seq<u8>)
    requires |s| >= 3
    ensures Le(s) == Load24(s, 0) + 0x100_0000 * Le(s[3..])
  {
    var a, b, c := s[1..], s[2..], s[3..];
    assert a[1..] == b && b[1..] == c;
    assert Le(s) == s[0] + 0x100 * Le(a);
    assert Le(a) == s[1] + 0x100 * Le(b);
    assert Le(b) == s[2] + 0x100 * Le(c);
  }

  /** The ten loads cover the 32 bytes without gap or overlap. */
  lemma LoadsLow(s: seq<u8>)
    requires |s| == 32
    ensures Le(s) == Load32(s, 0) + 0x1_0000_0000
            * (Load24(s, 4) + 0x100_0000 * (Load24(s, 7) + 0x100_0000 * (Load24(s, 10)
                     + 0x100_0000 * (Load24(s, 13) + 0x100_0000 * Le(s[16..])))))
  {
    LeLoad32(s);
    LeLoad24(s[4..]);
    LeLoad24(s[7..]);
    LeLoad24(s[10..]);
    LeLoad24(s[13..]);
    assert s[4..][3..] == s[7..] && s[7..][3..] == s[10..] && s[10..][3..] == s[13..] && s[13..][3..] == s[16..];
  }

  lemma LoadsHigh(s: seq<u8>)
    requires |s| == 32
    ensures Le(s[16..]) == Load32(s, 16) + 0x1_0000_0000 * (Load24(s, 20) + 0x100_0000 * (Load24(s, 23) + 0x100_0000
                     * (Load24(s, 26) + 0x100_0000 * Load24(s, 29) as int)))
  {
    LeLoad32(s[16..]);
    LeLoad24(s[20..]);
    LeLoad24(s[23..]);
    LeLoad24(s[26..]);
    LeLoad24(s[29..]);
    assert s[16..][4..] == s[20..] && s[20..][3..] == s[23..] && s[23..][3..] == s[26..] && s[26..][3..] == s[29..];
    assert s[29..][3..] == [];
  }

  lemma DecodedSum(a0: int, a1: int, a2: int, a3: int, a4: int, a5: int, a6: int, a7: int, a8: int, a9: int, top: int,
                   n: int, m: int)
    requires n == a0 + 0x1_0000_0000 * (a1 + 0x100_0000 * (a2 + 0x100_0000 * (a3 + 0x100_0000 * (a4 + 0x100_0000 * m))))
    requires m == a5 + 0x1_0000_0000 * (a6
             + 0x100_0000 * (a7 + 0x100_0000 * (a8 + 0x100_0000 * (a9 + 0x80_0000 * top))))
    ensures Sum(a0, a1 * 64, a2 * 32, a3 * 8, a4 * 4, a5, a6 * 128, a7 * 32, a8 * 16, a9 * 4) ==
            n - 0x8000000000000000000000000000000000000000000000000000000000000000 * top
  {
  }

  lemma IgnoreTop(n: int, x: int, top: int)
    requires 0 <= x < 0x8000000000000000000000000000000000000000000000000000000000000000
             && n == x + 0x8000000000000000000000000000000000000000000000000000000000000000 * top
    ensures x == n % 0x8000000000000000000000000000000000000000000000000000000000000000
  {
  }

  /** Decodes 255 bits, little endian; the top bit is ignored. */
  method FromBytes(s: seq<u8>, ghost F: Field) returns (h: Fe)
    requires |s| == 32 && IsField(F)
    ensures Tight(h)
    ensures F.res(h) == ModP(Le(s) % TWO255)
  {
    var t0: i64 := Load32(s, 0);
    var t1: i64, t2: i64, t3: i64, t4: i64 :=
        Load24(s, 4) * 64, Load24(s, 7) * 32, Load24(s, 10) * 8, Load24(s, 13) * 4;
    var t5: i64 := Load32(s, 16);
    var t6: i64, t7: i64, t8: i64 := Load24(s, 20) * 128, Load24(s, 23) * 32, Load24(s, 26) * 16;
    var t9: i64 := Load24(s, 29) % 0x80_0000 * 4;
    h := Carry(t0, t1, t2, t3, t4, t5, t6, t7, t8, t9);
    LoadsLow(s);
    LoadsHigh(s);
    DecodedSum(Load32(s, 0), Load24(s, 4), Load24(s, 7), Load24(s, 10), Load24(s, 13), Load32(s, 16),
               Load24(s, 20), Load24(s, 23), Load24(s, 26), Load24(s, 29) % 0x80_0000, Load24(s, 29) / 0x80_0000, Le(s),
                 Le(s[16..]));
    IgnoreTop(Le(s), Sum(t0, t1, t2, t3, t4, t5, t6, t7, t8, t9), Load24(s, 29) / 0x80_0000);
    assert ResAt(F, h);
  }

  // ---------- Encoding ----------

  function Radix(k: nat): int { if k % 2 == 0 then 0x400_0000 else 0x200_0000 }

  /** The weight of limb k, and the modulus 2^255 above the last one. */
  function Place(k: nat): int
    requires k <= 10
  {
    if k < 10 then Weight(k) else TWO255
  }

  lemma PlaceNext(k: nat)
    requires k < 10
    ensures Place(k + 1) == Radix(k) * Place(k) && Place(k) > 0
  {
  }

  lemma FloorStep(x: int, low: int, q: int, p: int, d: int, b: int, e: int, q': int)
    requires x == low + q * p && 0 <= low < p && q + d == q' * b + e && 0 <= e < b
    ensures x + p * d == (low + p * e) + q' * (b * p) && 0 <= low + p * e < b * p
  {
    CarryStep(x, low, q, p, d, b, e, q');
    assert p * e <= p * (b - 1);
    assert 0 <= p * e;
  }

  /** All digits are in range for their places. */
  predicate Digits(d: seq<int>) {
    |d| <= 10 && forall k :: 0 <= k < |d| ==> 0 <= d[k] < Radix(k)
  }

  lemma {:induction false} PartPrefix(d: seq<int>, e: int, k: nat)
    requires k <= |d| <= 9
    ensures Part(d + [e], k) == Part(d, k)
  {
    if k != 0 { PartPrefix(d, e, k - 1); }
  }

  lemma ChainStep(l: seq<int>, q0: int, q: int, d: seq<int>, s: int, e: int, q': int)
    requires |l| == 10 && |d| < 10
    requires q0 + Part(l, |d|) == Part(d, |d|) + q * Place(|d|) && 0 <= Part(d, |d|) < Place(|d|)
    requires s == q + l[|d|] && s == q' * Radix(|d|) + e && 0 <= e < Radix(|d|)
    ensures q0 + Part(l, |d| + 1) == Part(d + [e], |d| + 1) + q' * Place(|d| + 1)
    ensures 0 <= Part(d + [e], |d| + 1) < Place(|d| + 1)
  {
    var n := |d|;
    PlaceNext(n);
    PartPrefix(d, e, n);
    FloorStep(q0 + Part(l, n), Part(d, n), q, Place(n), l[n], Radix(n), e, q');
  }

  /** The carry chain of fe_tobytes, with arithmetic shifts: digits in range, and the carry out of the top. */
  method Chain(l: seq<int>, q0: int) returns (q: int, d: seq<int>)
    requires |l| == 10 && (forall k :: 0 <= k < 10 ==> -0x400_0000 <= l[k] <= 0x400_0000) && -0x1000 <= q0 <= 0x1000
    ensures |d| == 10 && Digits(d)
    ensures q0 + Part(l, |d|) == Part(d, |d|) + q * TWO255 && 0 <= Part(d, |d|) < TWO255
  {
    q, d := q0, [];
    for i := 0 to 10
      invariant |d| == i && Digits(d) && -0x1000 <= q <= 0x1000
      invariant q0 + Part(l, i) == Part(d, i) + q * Place(i) && 0 <= Part(d, i) < Place(i)
    {
      var s: i32 := q + l[i];
      ghost var q1 := q;
      var e := s % Radix(i);
      q := s / Radix(i);
      ChainStep(l, q0, q1, d, s, e, q);
      d := d + [e];
    }
  }

  /** The first chain tells the sign of h: its carry out is 0 or -1. */
  lemma SignCarry(v: int, q0: int, q: int, low: int)
    requires v >= 0 ==> 0 <= q0 + v < TWO255
    requires v < 0 ==> -TWO255 <= q0 + v < 0
    requires q0 + v == low + q * TWO255 && 0 <= low < TWO255
    ensures q == if v >= 0 then 0 else -1
  {
    if v >= 0 { ModUnique(q0 + v, 0, TWO255, q0 + v); } else { ModUnique(q0 + v, -1, TWO255, q0 + v + TWO255); }
    ModUnique(q0 + v, q, TWO255, low);
  }

  /** The rounded top limb tells the sign of the element. */
  lemma SignRange(h: Fe, v: int, q0: int)
    requires Tight(h) && v == Value(h) && q0 == (19 * h.l9 as int + 0x100_0000) / 0x200_0000
    ensures -P < v < P
    ensures v >= 0 ==> 0 <= q0 + v < TWO255
    ensures v < 0 ==> -TWO255 <= q0 + v < 0
  {
  }

  /** The second chain, started from 19 times that carry, leaves the canonical representative. */
  lemma Canonical(v: int, q: int, q': int, r: int)
    requires -P < v < P && q == if v >= 0 then 0 else -1
    requires 19 * q + v == r + q' * TWO255 && 0 <= r < TWO255
    ensures r == ModP(v)
  {
    ModUnique(v, q, P, r);
  }

  /** The ten digits of the canonical representative. */
  method Normalise(t: array<int>, h: Fe)
    requires Tight(h) && t.Length == 10
    modifies t
    ensures Digits(t[..]) && Part(t[..], t.Length) == ModP(Value(h))
  {
    var l := LimbsOf(h);
    var t9: int := h.l9;
    var q0: i32 := (19 * t9 + 0x100_0000) / 0x200_0000;
    var q, d0 := Chain(l, q0);
    PartAll(h, |d0|);
    SignRange(h, Value(h), q0);
    SignCarry(Value(h), q0, q, Part(d0, |d0|));
    var q', d := Chain(l, 19 * q);
    Canonical(Value(h), q, q', Part(d, |d|));
    CopyTen(t, d);
  }

  method CopyTen(t: array<int>, d: seq<int>)
    requires t.Length == |d| == 10
    modifies t
    ensures t[..] == d
  {
    for i := 0 to 10
      invariant t[..i] == d[..i]
    {
      t[i] := d[i];
    }
  }

  /** 2^k, for the six shifts the packing uses. */
  function TwoTo(k: nat): int {
    match k case 6 => 0x40 case 12 => 0x1000 case 13 => 0x2000 case 19 => 0x8_0000 case 25 => 0x200_0000
      case _ => 0x400_0000
  }

  /** b << k, in 32 bits. */
  function ShiftUp(b: u32, k: nat): (r: u32) {
    match k
    case 6 => b % 0x400_0000 * 0x40
    case 12 => b % 0x10_0000 * 0x1000
    case 13 => b % 0x8_0000 * 0x2000
    case 19 => b % 0x2000 * 0x8_0000
    case 25 => b % 0x80 * 0x200_0000
    case _ => b % 0x40 * 0x400_0000
  }

  predicate IsShift(k: nat) { k == 6 || k == 12 || k == 13 || k == 19 || k == 25 || k == 26 }

  lemma ShiftUpIs(b: u32, k: nat)
    requires IsShift(k)
    ensures ShiftUp(b, k) == b * TwoTo(k) % 0x1_0000_0000
    ensures ShiftUp(b, k) / TwoTo(k) * TwoTo(k) == ShiftUp(b, k)
  {
    match k
    case 6 => ShiftBy(b, 0x400_0000, 0x40);
    case 12 => ShiftBy(b, 0x10_0000, 0x1000);
    case 13 => ShiftBy(b, 0x8_0000, 0x2000);
    case 19 => ShiftBy(b, 0x2000, 0x8_0000);
    case 25 => ShiftBy(b, 0x80, 0x200_0000);
    case _ => ShiftBy(b, 0x40, 0x400_0000);
  }

  /** Shifting left within m * t keeps the low part. */
  lemma ShiftBy(b: nat, m: nat, t: nat)
    requires m > 0 && t > 0
    ensures b * t % (m * t) == b % m * t && (b % m * t) / t * t == b % m * t
  {
    var q, r := b / m, b % m;
    assert b * t == q * (m * t) + r * t by { assert (q * m + r) * t == q * (m * t) + r * t; }
    assert 0 <= r * t < m * t;
    ModUnique(b * t, q, m * t, r * t);
    ModUnique(r * t, r, t, 0);
  }

  lemma Powers(k: nat)
    requires IsShift(k)
    ensures Pow(2, k) == TwoTo(k)
  {
    var six := 6;
    assert Pow(2, six) == 0x40;
    PowAdd(2, six, six);
    assert Pow(2, six + six + 1) == 2 * Pow(2, six + six);
    PowAdd(2, six, 13);
    PowAdd(2, six, 19);
    assert Pow(2, 26) == 2 * Pow(2, 25);
  }

  /** A 32-bit word: digit bits a below, shifted digit b above; what b shifts out is dropped. */
  method Splice(a: u32, b: u32, k: nat) returns (w: u32)
    requires IsShift(k) && a < TwoTo(k)
    ensures w == a + ShiftUp(b, k)
  {
    var x: int, y: int := a, ShiftUp(b, k);
    ShiftUpIs(b, k);
    Powers(k);
    OrDisjoint(x, y / TwoTo(k), k);
    w := Or(x, y);
  }

  /** The eight words hold the ten digits side by side. */
  lemma PackedSum(t0: int, t1: int, t2: int, t3: int, t4: int, t5: int, t6: int, t7: int, t8: int, t9: int,
                  w0: int, w1: int, w2: int, w3: int, w4: int, w5: int, w6: int, w7: int)
    requires w0 == t0 + t1 % 0x40 * 0x400_0000 && w1 == t1 / 0x40 + t2 % 0x2000 * 0x8_0000
    requires w2 == t2 / 0x2000 + t3 % 0x8_0000 * 0x2000 && w3 == t3 / 0x8_0000 + t4 * 0x40
    requires w4 == t5 + t6 % 0x80 * 0x200_0000 && w5 == t6 / 0x80 + t7 % 0x2000 * 0x8_0000
    requires w6 == t7 / 0x2000 + t8 % 0x10_0000 * 0x1000 && w7 == t8 / 0x10_0000 + t9 * 0x40
    ensures w0 + 0x1_0000_0000 * w1 + 0x1_0000_0000_0000_0000 * w2 + 0x1_0000_0000_0000_0000_0000_0000 * w3
            + 0x1_0000_0000_0000_0000_0000_0000_0000_0000
              * (w4 + 0x1_0000_0000 * w5 + 0x1_0000_0000_0000_0000 * w6 + 0x1_0000_0000_0000_0000_0000_0000 * w7)
         == Sum(t0, t1, t2, t3, t4, t5, t6, t7, t8, t9)
  {
  }

  /** The canonical encoding: the 32 bytes of the residue below 2^255 - 19. */
  method ToBytes(s: array<u8>, h: Fe)
    requires Tight(h) && s.Length == 32
    modifies s
    ensures Le(s[..]) == ModP(Value(h))
  {
    var t := new int[10];
    Normalise(t, h);
    var w := Pack(t[..]);
    PartSum(t[..], t.Length);
    StoreValue(w);
    var b := StoreAll(w);
    for i := 0 to 32
      invariant s[..i] == b[..i]
    {
      s[i] := b[i];
    }
    assert s[..] == b;
  }

  method Pack(d: seq<int>) returns (w: seq<u32>)
    requires |d| == 10 && Digits(d)
    ensures |w| == 8 && Limbs(w) == Sum(d[0], d[1], d[2], d[3], d[4], d[5], d[6], d[7], d[8], d[9])
  {
    var w0 := Splice(d[0], d[1], 26);
    var w1 := Splice(d[1] / 0x40, d[2], 19);
    var w2 := Splice(d[2] / 0x2000, d[3], 13);
    var w3 := Splice(d[3] / 0x8_0000, d[4], 6);
    var w4 := Splice(d[5], d[6], 25);
    var w5 := Splice(d[6] / 0x80, d[7], 19);
    var w6 := Splice(d[7] / 0x2000, d[8], 12);
    var w7 := Splice(d[8] / 0x10_0000, d[9], 6);
    w := [w0, w1, w2, w3, w4, w5, w6, w7];
    Limbs8(w);
    PackedSum(d[0], d[1], d[2], d[3], d[4], d[5], d[6], d[7], d[8], d[9], w0, w1, w2, w3, w4, w5, w6, w7);
  }

  // ---------- The ladder ----------

  /** Arithmetic on residues, and the residue of a field element. */
  datatype Field = Field(mul: (int, int) -> int, add: (int, int) -> int, sub: (int, int) -> int, res: Fe -> int)

  ghost predicate MulAt(F: Field, x: int, y: int) {
    F.mul(x, y) == ModP(x * y) && F.add(x, y) == ModP(x + y) && F.sub(x, y) == ModP(x - y)
  }

  ghost predicate ResAt(F: Field, f: Fe) { F.res(f) == ModP(Value(f)) }

  /** F is the field of integers modulo 2^255 - 19.  Its operations are carried as functions, which proofs unfold
      only where they ask for them. */
  ghost predicate IsField(F: Field) {
    && (forall x, y {:trigger MulAt(F, x, y)} :: MulAt(F, x, y))
    && (forall f {:trigger ResAt(F, f)} :: ResAt(F, f))
  }

  ghost function Residues(): (F: Field)
    ensures IsField(F)
  {
    var F := Field((x, y) => ModP(x * y), (x, y) => ModP(x + y), (x, y) => ModP(x - y), (f: Fe) => ModP(Value(f)));
    assert forall x, y {:trigger MulAt(F, x, y)} :: MulAt(F, x, y);
    F
  }

  lemma ModSum(a: int, b: int)
    ensures ModP(a + b) == ModP(ModP(a) + ModP(b)) && ModP(a - b) == ModP(ModP(a) - ModP(b))
  {
    var j, k := a / P, b / P;
    assert a == ModP(a) + j * P && b == ModP(b) + k * P;
    ModShift(ModP(a) + ModP(b), j + k, P);
    ModShift(ModP(a) - ModP(b), j - k, P);
  }

  method MulF(f: Fe, g: Fe, ghost F: Field) returns (h: Fe)
    requires Loose(f) && Loose(g) && IsField(F)
    ensures Tight(h) && F.res(h) == F.mul(F.res(f), F.res(g))
  {
    h := Mul(f, g);
    assert ResAt(F, h) && ResAt(F, f) && ResAt(F, g) && MulAt(F, F.res(f), F.res(g));
    ModProduct(Value(f), Value(g), P);
  }

  method SqF(f: Fe, ghost F: Field) returns (h: Fe)
    requires Loose(f) && IsField(F)
    ensures Tight(h) && F.res(h) == F.mul(F.res(f), F.res(f))
  {
    h := Sq(f);
    assert ResAt(F, h) && ResAt(F, f) && MulAt(F, F.res(f), F.res(f));
    ModProduct(Value(f), Value(f), P);
  }

  method Add(f: Fe, g: Fe) returns (h: Fe)
    requires Tight(f) && Tight(g)
    ensures Loose(h) && Value(h) == Value(f) + Value(g)
  {
    h := Fe(f.l0 + g.l0, f.l1 + g.l1, f.l2 + g.l2, f.l3 + g.l3, f.l4 + g.l4, f.l5 + g.l5, f.l6 + g.l6, f.l7 + g.l7,
      f.l8 + g.l8, f.l9 + g.l9);
  }

  method Sub(f: Fe, g: Fe) returns (h: Fe)
    requires Tight(f) && Tight(g)
    ensures Loose(h) && Value(h) == Value(f) - Value(g)
  {
    h := Fe(f.l0 - g.l0, f.l1 - g.l1, f.l2 - g.l2, f.l3 - g.l3, f.l4 - g.l4, f.l5 - g.l5, f.l6 - g.l6, f.l7 - g.l7,
      f.l8 - g.l8, f.l9 - g.l9);
  }

  lemma ResidueSum(F: Field, f: Fe, g: Fe, h: Fe)
    requires IsField(F)
    ensures Value(h) == Value(f) + Value(g) ==> F.res(h) == F.add(F.res(f), F.res(g))
    ensures Value(h) == Value(f) - Value(g) ==> F.res(h) == F.sub(F.res(f), F.res(g))
  {
    assert ResAt(F, h) && ResAt(F, f) && ResAt(F, g) && MulAt(F, F.res(f), F.res(g));
    ModSum(Value(f), Value(g));
  }

  method AddF(f: Fe, g: Fe, ghost F: Field) returns (h: Fe)
    requires Tight(f) && Tight(g) && IsField(F)
    ensures Loose(h) && F.res(h) == F.add(F.res(f), F.res(g))
  {
    h := Add(f, g);
    ResidueSum(F, f, g, h);
  }

  method SubF(f: Fe, g: Fe, ghost F: Field) returns (h: Fe)
    requires Tight(f) && Tight(g) && IsField(F)
    ensures Loose(h) && F.res(h) == F.sub(F.res(f), F.res(g))
  {
    h := Sub(f, g);
    ResidueSum(F, f, g, h);
  }

  method MulSmallF(f: Fe, g: i32, ghost F: Field) returns (h: Fe)
    requires Loose(f) && IsField(F) && 0 <= g
    ensures Tight(h) && F.res(h) == F.mul(g, F.res(f))
  {
    h := MulSmall(f, g);
    assert ResAt(F, h) && ResAt(F, f) && MulAt(F, g, F.res(f));
    ModProduct(g, Value(f), P);
    ModUnique(g, 0, P, g);
  }

  /** The element n, for n below 2^26; z is zero. */
  method Small(n: i32, z: i32, ghost F: Field) returns (h: Fe)
    requires IsField(F) && z == 0 && 0 <= n <= 1
    ensures Tight(h) && F.res(h) == n
  {
    h := Fe(n, z, z, z, z, z, z, z, z, z);
    assert ResAt(F, h);
    ModUnique(n, 0, P, n);
  }

  /** The two points of the ladder, in projective X and Z coordinates. */
  datatype Ladder = Ladder(x2: int, z2: int, x3: int, z3: int) {
    function Swap(): Ladder { Ladder(x3, z3, x2, z2) }
  }

  /** One step of the ladder, as RFC 7748 writes it. */
  function RfcStep(F: Field, x1: int, s: Ladder): Ladder {
    var a, b := F.add(s.x2, s.z2), F.sub(s.x2, s.z2);
    var aa, bb := F.mul(a, a), F.mul(b, b);
    var e := F.sub(aa, bb);
    var c, d := F.add(s.x3, s.z3), F.sub(s.x3, s.z3);
    var da, cb := F.mul(d, a), F.mul(c, b);
    var p, m := F.add(da, cb), F.sub(da, cb);
    Ladder(F.mul(aa, bb), F.mul(e, F.add(aa, F.mul(121665, e))), F.mul(p, p), F.mul(x1, F.mul(m, m)))
  }

  /** A zero bit doubles the first point, a one bit the second. */
  function LadderBit(F: Field, x1: int, s: Ladder, bit: int): Ladder {
    if bit == 1 then RfcStep(F, x1, s.Swap()).Swap() else RfcStep(F, x1, s)
  }

  /** The two points after the bits top-1 down to i of the scalar, where step takes one bit. */
  function LadderFrom(step: (Ladder, int) -> Ladder, x1: int, scalar: seq<u8>, i: nat, top: nat): Ladder
    requires |scalar| == 32 && i <= top <= 256
    decreases top - i
  {
    if i == top then Ladder(1, 0, x1, 1)
    else step(LadderFrom(step, x1, scalar, i + 1, top), ScalarBit(scalar, i))
  }

  ghost predicate StepAt(step: (Ladder, int) -> Ladder, F: Field, x1: int, s: Ladder, b: int) {
    step(s, b) == LadderBit(F, x1, s, b)
  }

  ghost predicate IsStep(step: (Ladder, int) -> Ladder, F: Field, x1: int) {
    forall s, b {:trigger StepAt(step, F, x1, s, b)} :: StepAt(step, F, x1, s, b)
  }

  /** The code multiplies by 121666 and starts from BB, the standard by 121665 and starts from AA. */
  lemma SameConstant(F: Field, aa: int, bb: int)
    requires IsField(F)
    ensures F.add(bb, F.mul(121666, F.sub(aa, bb))) == F.add(aa, F.mul(121665, F.sub(aa, bb)))
  {
    var e := F.sub(aa, bb);
    assert MulAt(F, aa, bb) && MulAt(F, 121666, e) && MulAt(F, 121665, e);
    assert MulAt(F, bb, F.mul(121666, e)) && MulAt(F, aa, F.mul(121665, e));
    ConstantArith(aa, bb, e);
  }

  lemma ConstantArith(aa: int, bb: int, e: int)
    requires e == ModP(aa - bb)
    ensures ModP(bb + ModP(121666 * e)) == ModP(aa + ModP(121665 * e))
  {
    var k, k1, k2 := (aa - bb) / P, 121666 * e / P, 121665 * e / P;
    assert aa - bb == e + k * P && 121666 * e == ModP(121666 * e) + k1 * P && 121665 * e == ModP(121665 * e) + k2 * P;
    ModShift(aa + ModP(121665 * e), k2 - k1 - k, P);
  }

  /** What the ladder holds, as residues. */
  ghost function State(F: Field, x2: Fe, z2: Fe, x3: Fe, z3: Fe): Ladder {
    Ladder(F.res(x2), F.res(z2), F.res(x3), F.res(z3))
  }

  /** One pass through the loop body after the swap; every multiplication gets operands it accepts. */
  method Step(x1: Fe, x2: Fe, z2: Fe, x3: Fe, z3: Fe, ghost F: Field) returns (x2': Fe, z2': Fe, x3': Fe, z3': Fe)
    requires Tight(x1) && Tight(x2) && Tight(z2) && Tight(x3) && Tight(z3) && IsField(F)
    ensures Tight(x2') && Tight(z2') && Tight(x3') && Tight(z3')
    ensures State(F, x2', z2', x3', z3') == RfcStep(F, F.res(x1), State(F, x2, z2, x3, z3))
  {
    var t0 := SubF(x3, z3, F);
    var t1 := SubF(x2, z2, F);
    x2' := AddF(x2, z2, F);
    z2' := AddF(x3, z3, F);
    z3' := MulF(t0, x2', F);
    z2' := MulF(z2', t1, F);
    t0 := SqF(t1, F);
    t1 := SqF(x2', F);
    SameConstant(F, F.res(t1), F.res(t0));
    x3' := AddF(z3', z2', F);
    z2' := SubF(z3', z2', F);
    x2' := MulF(t1, t0, F);
    t1 := SubF(t1, t0, F);
    z2' := SqF(z2', F);
    z3' := MulSmallF(t1, 121666, F);
    x3' := SqF(x3', F);
    t0 := AddF(t0, z3', F);
    z3' := MulF(x1, z2', F);
    z2' := MulF(t1, t0, F);
  }

  method CSwap(f: Fe, g: Fe, b: int) returns (f': Fe, g': Fe)
    requires 0 <= b <= 1
    ensures (f', g') == if b == 1 then (g, f) else (f, g)
  {
    f', g' := f, g;
    if b == 1 {
      f', g' := g, f;
    }
  }

  function Swapped(s: Ladder, swap: int): Ladder { if swap == 1 then s.Swap() else s }

  /** One bit: the swap left over from the last bit and the one for this bit are done together. */
  method Bit(x1: Fe, x2: Fe, z2: Fe, x3: Fe, z3: Fe, swap: int, b: int,
             ghost F: Field, ghost s: Ladder, ghost step: (Ladder, int) -> Ladder)
    returns (x2': Fe, z2': Fe, x3': Fe, z3': Fe)
    requires Tight(x1) && Tight(x2) && Tight(z2) && Tight(x3) && Tight(z3) && IsField(F) && 0 <= swap <= 1
             && 0 <= b <= 1
    requires State(F, x2, z2, x3, z3) == Swapped(s, swap) && IsStep(step, F, F.res(x1))
    ensures Tight(x2') && Tight(z2') && Tight(x3') && Tight(z3')
    ensures State(F, x2', z2', x3', z3') == Swapped(step(s, b), b)
  {
    var both := if swap == b then 0 else 1;
    x2', x3' := CSwap(x2, x3, both);
    z2', z3' := CSwap(z2, z3, both);
    assert State(F, x2', z2', x3', z3') == Swapped(s, b);
    x2', z2', x3', z3' := Step(x1, x2', z2', x3', z3', F);
    assert StepAt(step, F, F.res(x1), s, b);
  }

  /** The ladder of scalarmult, up to the final division: the swaps deferred from one bit to the next leave
      exactly the points of the standard ladder. */
  method ScalarMult(scalar: seq<u8>, point: seq<u8>, bits: nat, ghost F: Field, ghost step: (Ladder, int) -> Ladder,
                    ghost u: int)
    returns (x2: Fe, z2: Fe)
    requires |scalar| == 32 && |point| == 32 && bits <= 256
    requires IsField(F) && u == ModP(Le(point) % TWO255) && IsStep(step, F, u)
    ensures Tight(x2) && Tight(z2)
    ensures var s := LadderFrom(step, u, scalar, 0, bits); F.res(x2) == s.x2 && F.res(z2) == s.z2
  {
    var x1 := FromBytes(point, F);
    x2 := Small(1, 0, F);
    z2 := Small(0, 0, F);
    var x3 := x1;
    var z3 := Small(1, 0, F);
    var swap, pos := 0, bits - 1;
    while pos >= 0
      invariant -1 <= pos < bits && 0 <= swap <= 1
      invariant Tight(x2) && Tight(z2) && Tight(x3) && Tight(z3)
      invariant State(F, x2, z2, x3, z3) == Swapped(LadderFrom(step, u, scalar, pos + 1, bits), swap)
    {
      var b := ScalarBit(scalar, pos);
      x2, z2, x3, z3 := Bit(x1, x2, z2, x3, z3, swap, b, F, LadderFrom(step, u, scalar, pos + 1, bits), step);
      swap := b;
      pos := pos - 1;
    }
    x2, x3 := CSwap(x2, x3, swap);
    z2, z3 := CSwap(z2, z3, swap);
  }

  ghost function BitStep(F: Field, x1: int): (step: (Ladder, int) -> Ladder)
    ensures IsStep(step, F, x1)
  {
    var step := (s: Ladder, b: int) => LadderBit(F, x1, s, b);
    assert forall s, b {:trigger StepAt(step, F, x1, s, b)} :: StepAt(step, F, x1, s, b);
    step
  }
}
