/** Arithmetic modulo 2^255 - 19 on ten signed limbs of alternately 26 and 25 bits. */
module Field25519 {
  import opened Guards
  import opened Words

  const P: int := 0x7fffffffffffffffffffffffffffffffffffffffffffffffffffffffffffffed // 2^255 - 19

  function ModP(x: int): int { x % 0x7fffffffffffffffffffffffffffffffffffffffffffffffffffffffffffffed }

  function PTimes(k: int): int { 0x7fffffffffffffffffffffffffffffffffffffffffffffffffffffffffffffed * k }

  /** A field element in limbs; limb i weighs 2^ceil(25.5 i). */
  datatype Fe = Fe(l0: i32, l1: i32, l2: i32, l3: i32, l4: i32, l5: i32, l6: i32, l7: i32, l8: i32, l9: i32)

  function Sum(t0: int, t1: int, t2: int, t3: int, t4: int, t5: int, t6: int, t7: int, t8: int, t9: int): int {
    t0 + 0x4000000 * t1 + 0x8000000000000 * t2 + 0x20000000000000000000 * t3 + 0x40000000000000000000000000 * t4
    + 0x100000000000000000000000000000000 * t5 + 0x200000000000000000000000000000000000000 * t6
      + 0x800000000000000000000000000000000000000000000 * t7
    + 0x1000000000000000000000000000000000000000000000000000 * t8
      + 0x4000000000000000000000000000000000000000000000000000000000 * t9
  }

  function Value(f: Fe): int {
    Sum(f.l0, f.l1, f.l2, f.l3, f.l4, f.l5, f.l6, f.l7, f.l8, f.l9)
  }

  predicate Within(f: Fe, even: int, odd: int) {
    && -even <= f.l0 <= even && -even <= f.l2 <= even && -even <= f.l4 <= even && -even <= f.l6 <= even
      && -even <= f.l8 <= even
    && -odd <= f.l1 <= odd && -odd <= f.l3 <= odd && -odd <= f.l5 <= odd && -odd <= f.l7 <= odd && -odd <= f.l9 <= odd
  }

  /** Below 1.1 * 2^25 and 1.1 * 2^24: what carrying leaves. */
  predicate Tight(f: Fe) { Within(f, 36909875, 18454937) }

  /** Below 1.65 * 2^26 and 1.65 * 2^25: what a multiplication accepts. */
  predicate Loose(f: Fe) { Within(f, 110729625, 55364812) }

  // ---------- Carry propagation ----------

  predicate Carriable(t: int) { -0x4000_0000_0000_0000 < t < 0x4000_0000_0000_0000 }

  predicate AllCarriable(t1: int, t2: int, t3: int, t4: int, t5: int, t6: int, t7: int, t8: int, t9: int) {
    && Carriable(t1) && Carriable(t2) && Carriable(t3) && Carriable(t4) && Carriable(t5)
    && Carriable(t6) && Carriable(t7) && Carriable(t8) && Carriable(t9)
  }

  predicate In64(x: int) { -0x8000_0000_0000_0000 <= x < 0x8000_0000_0000_0000 }

  /** The carry out of a 26-bit limb, and whether what is computed for it fits 64 bits. */
  method Carry26(t: int) returns (fits: bool, low: int, c: int)
    requires In64(t)
    ensures t == low + 0x4000000 * c && -0x2000000 <= low < 0x2000000
    ensures fits <==> In64(t + 0x2000000)
  {
    c := (t + 0x2000000) / 0x4000000;
    low := t - c * 0x4000000;
    fits := In64(t + 0x2000000) && In64(c * 0x4000000) && In64(low);
  }

  method Carry25(t: int) returns (fits: bool, low: int, c: int)
    requires In64(t)
    ensures t == low + 0x2000000 * c && -0x1000000 <= low < 0x1000000
    ensures fits <==> In64(t + 0x1000000)
  {
    c := (t + 0x1000000) / 0x2000000;
    low := t - c * 0x2000000;
    fits := In64(t + 0x1000000) && In64(c * 0x2000000) && In64(low);
  }

  /** FE_CARRY on any limbs that meet its documented bounds, |t0| < 2^63 and the others below 2^62: all that the twelve
      carries compute fits 64 bits if and only if t0 is below 2^63 - 2^25. The documented bound is too weak by that. */
  method CarryFits(s0: i64, s1: i64, s2: i64, s3: i64, s4: i64, s5: i64, s6: i64, s7: i64, s8: i64, s9: i64)
    returns (fits: bool)
    requires AllCarriable(s1, s2, s3, s4, s5, s6, s7, s8, s9)
    ensures fits <==> s0 < 0x8000_0000_0000_0000 - 0x200_0000
  {
    var ok1, t0, c0 := Carry26(s0);
    var ok2, t4, c4 := Carry26(s4);
    var ok3, t1, c1 := Carry25(s1 + c0);
    var ok4, t5, c5 := Carry25(s5 + c4);
    var ok5, t2, c2 := Carry26(s2 + c1);
    var ok6, t6, c6 := Carry26(s6 + c5);
    var ok7, t3, c3 := Carry25(s3 + c2);
    var ok8, t7, c7 := Carry25(s7 + c6);
    var ok9, t4', c4' := Carry26(t4 + c3);
    var ok10, t8, c8 := Carry26(s8 + c7);
    var ok11, t9, c9 := Carry25(s9 + c8);
    var ok12, t0', c0' := Carry26(t0 + 19 * c9);
    fits := ok1 && ok2 && ok3 && ok4 && ok5 && ok6 && ok7 && ok8 && ok9 && ok10 && ok11 && ok12
            && In64(t5 + c4') && In64(19 * c9) && In64(t1 + c0');
  }

  /** The first eight carries, up the two halves of the number. */
  method CarryUp(s0: i64, s1: i64, s2: i64, s3: i64, s4: i64, s5: i64, s6: i64, s7: i64, s8: i64, s9: i64)
    returns (t0: i64, t1: i64, t2: i64, t3: i64, t4: i64, t5: i64, t6: i64, t7: i64, t8: i64, t9: i64)
    requires s0 < 0x8000_0000_0000_0000 - 0x200_0000
    requires AllCarriable(s1, s2, s3, s4, s5, s6, s7, s8, s9)
    ensures Sum(t0, t1, t2, t3, t4, t5, t6, t7, t8, t9) == Sum(s0, s1, s2, s3, s4, s5, s6, s7, s8, s9)
    ensures -0x200_0000 <= t0 <= 0x200_0000 && -0x100_0000 <= t1 <= 0x100_0000 && -0x200_0000 <= t2 <= 0x200_0000
    ensures -0x100_0000 <= t3 <= 0x100_0000 && -0x80_0000_0000 <= t4 <= 0x80_0000_0000
            && -0x100_0000 <= t5 <= 0x100_0000
    ensures -0x200_0000 <= t6 <= 0x200_0000 && -0x100_0000 <= t7 <= 0x100_0000
    ensures -0x5000_0000_0000_0000 <= t8 <= 0x5000_0000_0000_0000 && Carriable(t9)
  {
    t0, t1, t2, t3, t4, t5, t6, t7, t8, t9 := s0, s1, s2, s3, s4, s5, s6, s7, s8, s9;
    var c: i64;
    c := (t0 + 0x2000000) / 0x4000000;
    t0 := t0 - c * 0x4000000;
    t1 := t1 + c;
    c := (t4 + 0x2000000) / 0x4000000;
    t4 := t4 - c * 0x4000000;
    t5 := t5 + c;
    c := (t1 + 0x1000000) / 0x2000000;
    t1 := t1 - c * 0x2000000;
    t2 := t2 + c;
    c := (t5 + 0x1000000) / 0x2000000;
    t5 := t5 - c * 0x2000000;
    t6 := t6 + c;
    c := (t2 + 0x2000000) / 0x4000000;
    t2 := t2 - c * 0x4000000;
    t3 := t3 + c;
    c := (t6 + 0x2000000) / 0x4000000;
    t6 := t6 - c * 0x4000000;
    t7 := t7 + c;
    c := (t3 + 0x1000000) / 0x2000000;
    t3 := t3 - c * 0x2000000;
    t4 := t4 + c;
    c := (t7 + 0x1000000) / 0x2000000;
    t7 := t7 - c * 0x2000000;
    t8 := t8 + c;
  }

  /** The last four carries; the one out of the top limb comes back times 19. */
  method CarryAround(s0: i64, s1: i64, s2: i64, s3: i64, s4: i64, s5: i64, s6: i64, s7: i64, s8: i64, s9: i64)
    returns (h: Fe)
    requires -0x200_0000 <= s0 <= 0x200_0000 && -0x100_0000 <= s1 <= 0x100_0000 && -0x200_0000 <= s2 <= 0x200_0000
    requires -0x100_0000 <= s3 <= 0x100_0000 && -0x80_0000_0000 <= s4 <= 0x80_0000_0000
             && -0x100_0000 <= s5 <= 0x100_0000
    requires -0x200_0000 <= s6 <= 0x200_0000 && -0x100_0000 <= s7 <= 0x100_0000
    requires -0x5000_0000_0000_0000 <= s8 <= 0x5000_0000_0000_0000 && Carriable(s9)
    ensures Tight(h)
    ensures ModP(Value(h)) == ModP(Sum(s0, s1, s2, s3, s4, s5, s6, s7, s8, s9))
  {
    var t0, t1, t4, t5, t8, t9 := s0, s1, s4, s5, s8, s9;
    var c: i64;
    c := (t4 + 0x2000000) / 0x4000000;
    t4 := t4 - c * 0x4000000;
    t5 := t5 + c;
    c := (t8 + 0x2000000) / 0x4000000;
    t8 := t8 - c * 0x4000000;
    t9 := t9 + c;
    c := (t9 + 0x1000000) / 0x2000000;
    t9 := t9 - c * 0x2000000;
    t0 := t0 + c * 19;
    ghost var q := c;
    c := (t0 + 0x2000000) / 0x4000000;
    t0 := t0 - c * 0x4000000;
    t1 := t1 + c;
    h := Fe(t0, t1, s2, s3, t4, t5, s6, s7, t8, t9);
    assert Value(h) == Sum(s0, s1, s2, s3, s4, s5, s6, s7, s8, s9) - q * P;
    ModShift(Sum(s0, s1, s2, s3, s4, s5, s6, s7, s8, s9), -q, P);
  }

  /** FE_CARRY: limbs return to their bounds and the residue is kept. */
  method Carry(s0: i64, s1: i64, s2: i64, s3: i64, s4: i64, s5: i64, s6: i64, s7: i64, s8: i64, s9: i64) returns (h: Fe)
    requires s0 < 0x8000_0000_0000_0000 - 0x200_0000
    requires AllCarriable(s1, s2, s3, s4, s5, s6, s7, s8, s9)
    ensures Tight(h)
    ensures ModP(Value(h)) == ModP(Sum(s0, s1, s2, s3, s4, s5, s6, s7, s8, s9))
  {
    var t0, t1, t2, t3, t4, t5, t6, t7, t8, t9 := CarryUp(s0, s1, s2, s3, s4, s5, s6, s7, s8, s9);
    h := CarryAround(t0, t1, t2, t3, t4, t5, t6, t7, t8, t9);
  }

  // ---------- Products, row by row ----------

  /** Ten accumulators. */
  datatype Ten = Ten(t0: int, t1: int, t2: int, t3: int, t4: int, t5: int, t6: int, t7: int, t8: int, t9: int)

  function SumOf(t: Ten): int {
    Sum(t.t0, t.t1, t.t2, t.t3, t.t4, t.t5, t.t6, t.t7, t.t8, t.t9)
  }

  predicate Bounded(t: Ten, b: int) {
    && -b <= t.t0 <= b && -b <= t.t1 <= b && -b <= t.t2 <= b && -b <= t.t3 <= b && -b <= t.t4 <= b
    && -b <= t.t5 <= b && -b <= t.t6 <= b && -b <= t.t7 <= b && -b <= t.t8 <= b && -b <= t.t9 <= b
  }

  lemma SumAdds(a0: int, a1: int, a2: int, a3: int, a4: int, a5: int, a6: int, a7: int, a8: int, a9: int, b0: int,
                b1: int, b2: int, b3: int, b4: int, b5: int, b6: int, b7: int, b8: int, b9: int)
    ensures Sum(a0 + b0, a1 + b1, a2 + b2, a3 + b3, a4 + b4, a5 + b5, a6 + b6, a7 + b7, a8 + b8, a9 + b9)
         == Sum(a0, a1, a2, a3, a4, a5, a6, a7, a8, a9) + Sum(b0, b1, b2, b3, b4, b5, b6, b7, b8, b9)
  {
  }

  lemma SumScales(f: int, s0: int, s1: int, s2: int, s3: int, s4: int, s5: int, s6: int, s7: int, s8: int, s9: int)
    ensures Sum(f * s0, f * s1, f * s2, f * s3, f * s4, f * s5, f * s6, f * s7, f * s8, f * s9) ==
            f * Sum(s0, s1, s2, s3, s4, s5, s6, s7, s8, s9)
  {
  }

  lemma AbsBound(a: int, aMax: int, b: int, bMax: int)
    requires -aMax <= a <= aMax && -bMax <= b <= bMax
    ensures -(aMax * bMax) <= a * b <= aMax * bMax
  {
    MulBound(if a >= 0 then a else -a, aMax, if b >= 0 then b else -b, bMax);
    assert a * b == (if (a >= 0) == (b >= 0) then 1 else -1)
        * ((if a >= 0 then a else -a) * (if b >= 0 then b else -b));
  }

  /** All ten products of a row lie within m. */
  predicate Fits(f: int, s: Ten, m: int) {
    && -m <= f * s.t0 <= m && -m <= f * s.t1 <= m && -m <= f * s.t2 <= m && -m <= f * s.t3 <= m && -m <= f * s.t4 <= m
    && -m <= f * s.t5 <= m && -m <= f * s.t6 <= m && -m <= f * s.t7 <= m && -m <= f * s.t8 <= m && -m <= f * s.t9 <= m
  }

  lemma RowFits(f: int, fMax: int, s: Ten, sMax: int)
    requires -fMax <= f <= fMax && Bounded(s, sMax)
    ensures Fits(f, s, fMax * sMax)
  {
    AbsBound(f, fMax, s.t0, sMax);
    AbsBound(f, fMax, s.t1, sMax);
    AbsBound(f, fMax, s.t2, sMax);
    AbsBound(f, fMax, s.t3, sMax);
    AbsBound(f, fMax, s.t4, sMax);
    AbsBound(f, fMax, s.t5, sMax);
    AbsBound(f, fMax, s.t6, sMax);
    AbsBound(f, fMax, s.t7, sMax);
    AbsBound(f, fMax, s.t8, sMax);
    AbsBound(f, fMax, s.t9, sMax);
  }

  /** r is t with f times s added. Stated under a trigger, so that proofs see the products only where they ask for
      them. */
  ghost predicate Added(t: Ten, f: int, s: Ten, r: Ten) {
    forall z {:trigger Look(z)} :: Look(z) ==>
      && r.t0 == t.t0 + f * s.t0 && r.t1 == t.t1 + f * s.t1 && r.t2 == t.t2 + f * s.t2 && r.t3 == t.t3 + f * s.t3
        && r.t4 == t.t4 + f * s.t4
      && r.t5 == t.t5 + f * s.t5 && r.t6 == t.t6 + f * s.t6 && r.t7 == t.t7 + f * s.t7 && r.t8 == t.t8 + f * s.t8
        && r.t9 == t.t9 + f * s.t9
  }

  lemma AddedSum(t: Ten, f: int, s: Ten, r: Ten)
    requires Added(t, f, s, r)
    ensures SumOf(r) == SumOf(t) + f * SumOf(s)
  {
    assert Look(0);
    SumScales(f, s.t0, s.t1, s.t2, s.t3, s.t4, s.t5, s.t6, s.t7, s.t8, s.t9);
    SumAdds(t.t0, t.t1, t.t2, t.t3, t.t4, t.t5, t.t6, t.t7, t.t8, t.t9, f * s.t0, f * s.t1, f * s.t2, f * s.t3,
      f * s.t4, f * s.t5, f * s.t6, f * s.t7, f * s.t8, f * s.t9);
  }

  /** One limb f of the first factor joins the accumulators; no partial sum leaves 63 bits. */
  method Row(t: Ten, f: int, s: Ten, ghost b: int, ghost m: int) returns (r: Ten)
    requires Bounded(t, b) && Fits(f, s, m) && 0 <= b && b + m < 0x4000_0000_0000_0000
    ensures Bounded(r, b + m) && Added(t, f, s, r)
  {
    var r0: i64 := t.t0 + f * s.t0;
    var r1: i64 := t.t1 + f * s.t1;
    var r2: i64 := t.t2 + f * s.t2;
    var r3: i64 := t.t3 + f * s.t3;
    var r4: i64 := t.t4 + f * s.t4;
    var r5: i64 := t.t5 + f * s.t5;
    var r6: i64 := t.t6 + f * s.t6;
    var r7: i64 := t.t7 + f * s.t7;
    var r8: i64 := t.t8 + f * s.t8;
    var r9: i64 := t.t9 + f * s.t9;
    r := Ten(r0, r1, r2, r3, r4, r5, r6, r7, r8, r9);
  }

  function LimbsOf(f: Fe): seq<int> {
    [f.l0, f.l1, f.l2, f.l3, f.l4, f.l5, f.l6, f.l7, f.l8, f.l9]
  }

  function Weight(i: nat): int
    requires i < 10
  {
    match i case 0 => 1 case 1 => 0x4000000 case 2 => 0x8000000000000 case 3 => 0x20000000000000000000
      case 4 => 0x40000000000000000000000000 case 5 => 0x100000000000000000000000000000000
      case 6 => 0x200000000000000000000000000000000000000 case 7 => 0x800000000000000000000000000000000000000000000
      case 8 => 0x1000000000000000000000000000000000000000000000000000
      case _ => 0x4000000000000000000000000000000000000000000000000000000000
  }

  /** The number formed by the first i limbs. */
  function Part(f: seq<int>, i: nat): int
    requires i <= 10 && i <= |f|
  {
    if i == 0 then 0 else Part(f, i - 1) + Weight(i - 1) * f[i - 1]
  }

  lemma PartSum(l: seq<int>, n: nat)
    requires |l| == n == 10
    ensures Part(l, n) == Sum(l[0], l[1], l[2], l[3], l[4], l[5], l[6], l[7], l[8], l[9])
  {
    assert Part(l, n - 9) == Weight(0) * l[0];
    assert Part(l, n - 8) == Part(l, n - 9) + Weight(1) * l[1];
    assert Part(l, n - 7) == Part(l, n - 8) + Weight(2) * l[2];
    assert Part(l, n - 6) == Part(l, n - 7) + Weight(3) * l[3];
    assert Part(l, n - 5) == Part(l, n - 6) + Weight(4) * l[4];
    assert Part(l, n - 4) == Part(l, n - 5) + Weight(5) * l[5];
    assert Part(l, n - 3) == Part(l, n - 4) + Weight(6) * l[6];
    assert Part(l, n - 2) == Part(l, n - 3) + Weight(7) * l[7];
    assert Part(l, n - 1) == Part(l, n - 2) + Weight(8) * l[8];
    assert Part(l, n - 0) == Part(l, n - 1) + Weight(9) * l[9];
  }

  lemma PartAll(f: Fe, n: nat)
    requires n == 10
    ensures Part(LimbsOf(f), n) == Value(f)
  {
    PartSum(LimbsOf(f), n);
  }

  /** Row i of a product: g shifted by the weight of limb i, with what lies above 2^255 coming back times 19.
      Odd limbs count double in odd rows, since both weights were rounded up. */
  method Operand(g: Fe, i: nat, ghost sum: Ten -> int, ghost v: int) returns (s: Ten, ghost k: int)
    requires Loose(g) && i < 10 && IsSum(sum) && v == Value(g)
    ensures Bounded(s, 2103862875)
    ensures IsRow(v, i, sum(s), k)
  {
    if i < 3 {
      s, k := LowOperand(g, i, sum, v);
    } else if i < 5 {
      s, k := MiddleOperand(g, i, sum, v);
    } else if i < 7 {
      s, k := HighOperand(g, i, sum, v);
    } else {
      s, k := TopOperand(g, i, sum, v);
    }
  }

  method LowOperand(g: Fe, i: nat, ghost sum: Ten -> int, ghost v: int) returns (s: Ten, ghost k: int)
    requires Loose(g) && i < 3 && IsSum(sum) && v == Value(g)
    ensures Bounded(s, 2103862875)
    ensures IsRow(v, i, sum(s), k)
  {
    var g0: int, g1: int, g2: int, g3: int, g4: int, g5: int, g6: int, g7: int, g8: int, g9: int :=
        g.l0, g.l1, g.l2, g.l3, g.l4, g.l5, g.l6, g.l7, g.l8, g.l9;
    var G1: i32, G2: i32, G3: i32, G4: i32, G5: i32, G6: i32, G7: i32, G8: i32, G9: i32 :=
        g1 * 19, g2 * 19, g3 * 19, g4 * 19, g5 * 19, g6 * 19, g7 * 19, g8 * 19, g9 * 19;
    match i {
    case 0 =>
      s := Ten(g0, g1, g2, g3, g4, g5, g6, g7, g8, g9);
      k := 0;
    case 1 =>
      s := Ten(2 * G9, g0, 2 * g1, g2, 2 * g3, g4, 2 * g5, g6, 2 * g7, g8);
      k := 0x2 * g9;
    case _ =>
      s := Ten(G8, G9, g0, g1, g2, g3, g4, g5, g6, g7);
      k := g8 + 0x4000000 * g9;
    }
    assert SumAt(sum, s);
  }

  method MiddleOperand(g: Fe, i: nat, ghost sum: Ten -> int, ghost v: int) returns (s: Ten, ghost k: int)
    requires Loose(g) && 3 <= i < 5 && IsSum(sum) && v == Value(g)
    ensures Bounded(s, 2103862875)
    ensures IsRow(v, i, sum(s), k)
  {
    var g0: int, g1: int, g2: int, g3: int, g4: int, g5: int, g6: int, g7: int, g8: int, g9: int :=
        g.l0, g.l1, g.l2, g.l3, g.l4, g.l5, g.l6, g.l7, g.l8, g.l9;
    var G1: i32, G2: i32, G3: i32, G4: i32, G5: i32, G6: i32, G7: i32, G8: i32, G9: i32 :=
        g1 * 19, g2 * 19, g3 * 19, g4 * 19, g5 * 19, g6 * 19, g7 * 19, g8 * 19, g9 * 19;
    match i {
    case 3 =>
      s := Ten(2 * G7, G8, 2 * G9, g0, 2 * g1, g2, 2 * g3, g4, 2 * g5, g6);
      k := 0x2 * g7 + 0x4000000 * g8 + 0x10000000000000 * g9;
    case _ =>
      s := Ten(G6, G7, G8, G9, g0, g1, g2, g3, g4, g5);
      k := g6 + 0x4000000 * g7 + 0x8000000000000 * g8 + 0x20000000000000000000 * g9;
    }
    assert SumAt(sum, s);
  }

  method HighOperand(g: Fe, i: nat, ghost sum: Ten -> int, ghost v: int) returns (s: Ten, ghost k: int)
    requires Loose(g) && 5 <= i < 7 && IsSum(sum) && v == Value(g)
    ensures Bounded(s, 2103862875)
    ensures IsRow(v, i, sum(s), k)
  {
    var g0: int, g1: int, g2: int, g3: int, g4: int, g5: int, g6: int, g7: int, g8: int, g9: int :=
        g.l0, g.l1, g.l2, g.l3, g.l4, g.l5, g.l6, g.l7, g.l8, g.l9;
    var G1: i32, G2: i32, G3: i32, G4: i32, G5: i32, G6: i32, G7: i32, G8: i32, G9: i32 :=
        g1 * 19, g2 * 19, g3 * 19, g4 * 19, g5 * 19, g6 * 19, g7 * 19, g8 * 19, g9 * 19;
    match i {
    case 5 =>
      s := Ten(2 * G5, G6, 2 * G7, G8, 2 * G9, g0, 2 * g1, g2, 2 * g3, g4);
      k := 0x2 * g5 + 0x4000000 * g6 + 0x10000000000000 * g7 + 0x20000000000000000000 * g8
        + 0x80000000000000000000000000 * g9;
    case _ =>
      s := Ten(G4, G5, G6, G7, G8, G9, g0, g1, g2, g3);
      k := g4 + 0x4000000 * g5 + 0x8000000000000 * g6 + 0x20000000000000000000 * g7 + 0x40000000000000000000000000 * g8
        + 0x100000000000000000000000000000000 * g9;
    }
    assert SumAt(sum, s);
  }

  method TopOperand(g: Fe, i: nat, ghost sum: Ten -> int, ghost v: int) returns (s: Ten, ghost k: int)
    requires Loose(g) && 7 <= i < 10 && IsSum(sum) && v == Value(g)
    ensures Bounded(s, 2103862875)
    ensures IsRow(v, i, sum(s), k)
  {
    var g0: int, g1: int, g2: int, g3: int, g4: int, g5: int, g6: int, g7: int, g8: int, g9: int :=
        g.l0, g.l1, g.l2, g.l3, g.l4, g.l5, g.l6, g.l7, g.l8, g.l9;
    var G1: i32, G2: i32, G3: i32, G4: i32, G5: i32, G6: i32, G7: i32, G8: i32, G9: i32 :=
        g1 * 19, g2 * 19, g3 * 19, g4 * 19, g5 * 19, g6 * 19, g7 * 19, g8 * 19, g9 * 19;
    match i {
    case 7 =>
      s := Ten(2 * G3, G4, 2 * G5, G6, 2 * G7, G8, 2 * G9, g0, 2 * g1, g2);
      k := 0x2 * g3 + 0x4000000 * g4 + 0x10000000000000 * g5 + 0x20000000000000000000 * g6
        + 0x80000000000000000000000000 * g7 + 0x100000000000000000000000000000000 * g8
        + 0x400000000000000000000000000000000000000 * g9;
    case 8 =>
      s := Ten(G2, G3, G4, G5, G6, G7, G8, G9, g0, g1);
      k := g2 + 0x4000000 * g3 + 0x8000000000000 * g4 + 0x20000000000000000000 * g5 + 0x40000000000000000000000000 * g6
        + 0x100000000000000000000000000000000 * g7 + 0x200000000000000000000000000000000000000 * g8
        + 0x800000000000000000000000000000000000000000000 * g9;
    case _ =>
      s := Ten(2 * G1, G2, 2 * G3, G4, 2 * G5, G6, 2 * G7, G8, 2 * G9, g0);
      k := 0x2 * g1 + 0x4000000 * g2 + 0x10000000000000 * g3 + 0x20000000000000000000 * g4
        + 0x80000000000000000000000000 * g5 + 0x100000000000000000000000000000000 * g6
        + 0x400000000000000000000000000000000000000 * g7 + 0x800000000000000000000000000000000000000000000 * g8
        + 0x2000000000000000000000000000000000000000000000000000 * g9;
    }
    assert SumAt(sum, s);
  }

  /** The first |ss| limbs of f against the row values ss. */
  function Dot(f: seq<int>, ss: seq<int>): int
    requires |ss| <= |f|
  {
    if ss == [] then 0 else Dot(f, ss[..|ss| - 1]) + f[|ss| - 1] * ss[|ss| - 1]
  }

  lemma DotSnoc(f: seq<int>, ss: seq<int>, s: int)
    requires |ss| < |f|
    ensures Dot(f, ss + [s]) == Dot(f, ss) + f[|ss|] * s
  {
    var t := ss + [s];
    assert t[..|t| - 1] == ss && t[|t| - 1] == s;
  }

  /** s is v times the weight of limb i, less k times P. */
  ghost predicate IsRow(v: int, i: nat, s: int, k: int)
    requires i < 10
  {
    forall z {:trigger Look(z)} :: Look(z) ==> s == Weight(i) * v - PTimes(k)
  }

  ghost predicate Rows(v: int, ss: seq<int>, ks: seq<int>) {
    |ss| == |ks| <= 10 && forall i :: 0 <= i < |ss| ==> IsRow(v, i, ss[i], ks[i])
  }

  lemma RowArith(t: int, y: int, v: int, q: int, f: int, s: int, c: int, k: int)
    requires t == y * v - PTimes(q) && s == c * v - PTimes(k)
    ensures t + f * s == (y + c * f) * v - PTimes(q + f * k)
  {
    assert f * (c * v - PTimes(k)) == (c * f) * v - PTimes(f * k);
  }

  /** The rows of a product add up to it, modulo P. */
  lemma {:induction false} RowsValue(f: seq<int>, v: int, ss: seq<int>, ks: seq<int>) returns (q: int)
    requires Rows(v, ss, ks) && |f| == 10
    ensures Dot(f, ss) == Part(f, |ss|) * v - PTimes(q)
    decreases |ss|
  {
    q := 0;
    if ss != [] {
      var n := |ss| - 1;
      q := RowsValue(f, v, ss[..n], ks[..n]);
      assert Look(0) && IsRow(v, n, ss[n], ks[n]);
      RowArith(Dot(f, ss[..n]), Part(f, n), v, q, f[n], ss[n], Weight(n), ks[n]);
      q := q + f[n] * ks[n];
    }
  }

  lemma {:induction false} ProductResidue(f: seq<int>, v: int, ss: seq<int>, ks: seq<int>)
    requires Rows(v, ss, ks) && |ss| == |f| == 10
    ensures ModP(Dot(f, ss)) == ModP(Part(f, |ss|) * v)
  {
    var q := RowsValue(f, v, ss, ks);
    ModShift(Part(f, |ss|) * v, -q, P);
  }

  ghost predicate SumAt(sum: Ten -> int, t: Ten) { sum(t) == SumOf(t) }

  /** sum is SumOf, under a trigger: loops carry it without unfolding the ten weights. */
  ghost predicate IsSum(sum: Ten -> int) {
    forall t {:trigger SumAt(sum, t)} :: SumAt(sum, t)
  }

  lemma ZeroSum(t: Ten, z: int, sum: Ten -> int)
    requires z == 0 && t == Ten(z, z, z, z, z, z, z, z, z, z) && IsSum(sum)
    ensures sum(t) == 0
  {
    assert SumAt(sum, t);
  }

  method Zero(z: int, ghost sum: Ten -> int) returns (t: Ten)
    requires z == 0 && IsSum(sum)
    ensures Bounded(t, 0) && sum(t) == 0
  {
    t := Ten(z, z, z, z, z, z, z, z, z, z);
    ZeroSum(t, z, sum);
  }

  /** Adds row i of the product, whose value is s. */
  method AddRow(t: Ten, f: int, g: Fe, i: nat, ghost b: int, ghost sum: Ten -> int, ghost v: int)
    returns (r: Ten, ghost s: int, ghost k: int)
    requires -110729625 <= f <= 110729625 && Loose(g) && i < 10 && v == Value(g)
    requires Bounded(t, b) && 0 <= b <= 0x3c00_0000_0000_0000 && IsSum(sum)
    ensures Bounded(r, b + 0x33c_0000_0000_0000)
    ensures sum(r) == sum(t) + f * s && IsRow(v, i, s, k)
  {
    var row;
    row, k := Operand(g, i, sum, v);
    RowFits(f, 110729625, row, 2103862875);
    r := Row(t, f, row, b, 0x33c_0000_0000_0000);
    s := sum(row);
    AddedSum(t, f, row, r);
    assert SumAt(sum, t) && SumAt(sum, r) && SumAt(sum, row);
  }

  /** The ten accumulators of f * g, the rows of the product added up. */
  method Accumulate(f: seq<int>, g: Fe, ghost sum: Ten -> int, ghost v: int)
    returns (t: Ten, ghost ss: seq<int>, ghost ks: seq<int>)
    requires |f| == 10 && (forall i :: 0 <= i < 10 ==> -110729625 <= f[i] <= 110729625) && Loose(g) && IsSum(sum)
             && v == Value(g)
    ensures Bounded(t, 0x3fff_ffff_ffff_ffff)
    ensures |ss| == 10 && Rows(v, ss, ks) && sum(t) == Dot(f, ss)
  {
    t := Zero(0, sum);
    ss, ks := [], [];
    for i := 0 to 10
      invariant |ss| == i && Rows(v, ss, ks)
      invariant Bounded(t, i * 0x33c_0000_0000_0000)
      invariant sum(t) == Dot(f, ss)
    {
      ghost var s, k;
      t, s, k := AddRow(t, f[i], g, i, i * 0x33c_0000_0000_0000, sum, v);
      DotSnoc(f, ss, s);
      ss, ks := ss + [s], ks + [k];
    }
  }

  method Mul(f: Fe, g: Fe) returns (h: Fe)
    requires Loose(f) && Loose(g)
    ensures Tight(h)
    ensures ModP(Value(h)) == ModP(Value(f) * Value(g))
  {
    ghost var ss, ks;
    var t;
    ghost var sum := (x: Ten) => SumOf(x);
    assert IsSum(sum);
    t, ss, ks := Accumulate(LimbsOf(f), g, sum, Value(g));
    assert SumAt(sum, t);
    ProductResidue(LimbsOf(f), Value(g), ss, ks);
    PartAll(f, |ss|);
    h := Carry(t.t0, t.t1, t.t2, t.t3, t.t4, t.t5, t.t6, t.t7, t.t8, t.t9);
  }

  // ---------- Squaring ----------

  /** Limb i and twice the limbs above it; z stands for zero. */
  function Doubled(f: Fe, i: nat, z: int): int
    requires i < 10
  {
    match i
    case 0 => Sum(f.l0, 2 * f.l1, 2 * f.l2, 2 * f.l3, 2 * f.l4, 2 * f.l5, 2 * f.l6, 2 * f.l7, 2 * f.l8, 2 * f.l9)
    case 1 => Sum(z, f.l1, 2 * f.l2, 2 * f.l3, 2 * f.l4, 2 * f.l5, 2 * f.l6, 2 * f.l7, 2 * f.l8, 2 * f.l9)
    case 2 => Sum(z, z, f.l2, 2 * f.l3, 2 * f.l4, 2 * f.l5, 2 * f.l6, 2 * f.l7, 2 * f.l8, 2 * f.l9)
    case 3 => Sum(z, z, z, f.l3, 2 * f.l4, 2 * f.l5, 2 * f.l6, 2 * f.l7, 2 * f.l8, 2 * f.l9)
    case 4 => Sum(z, z, z, z, f.l4, 2 * f.l5, 2 * f.l6, 2 * f.l7, 2 * f.l8, 2 * f.l9)
    case 5 => Sum(z, z, z, z, z, f.l5, 2 * f.l6, 2 * f.l7, 2 * f.l8, 2 * f.l9)
    case 6 => Sum(z, z, z, z, z, z, f.l6, 2 * f.l7, 2 * f.l8, 2 * f.l9)
    case 7 => Sum(z, z, z, z, z, z, z, f.l7, 2 * f.l8, 2 * f.l9)
    case 8 => Sum(z, z, z, z, z, z, z, z, f.l8, 2 * f.l9)
    case _ => Sum(z, z, z, z, z, z, z, z, z, f.l9)
  }

  lemma PartHeads(f: Fe, z: nat)
    requires z == 0
    ensures var l := LimbsOf(f);
            && Part(l, z) == 0
            && Part(l, z + 1) == Part(l, z) + Weight(0) * l[0]
            && Part(l, z + 2) == Part(l, z + 1) + Weight(1) * l[1]
            && Part(l, z + 3) == Part(l, z + 2) + Weight(2) * l[2]
            && Part(l, z + 4) == Part(l, z + 3) + Weight(3) * l[3]
            && Part(l, z + 5) == Part(l, z + 4) + Weight(4) * l[4]
            && Part(l, z + 6) == Part(l, z + 5) + Weight(5) * l[5]
            && Part(l, z + 7) == Part(l, z + 6) + Weight(6) * l[6]
            && Part(l, z + 8) == Part(l, z + 7) + Weight(7) * l[7]
            && Part(l, z + 9) == Part(l, z + 8) + Weight(8) * l[8]
  {
  }

  lemma DoubledLow(f: Fe, i: nat, z: nat)
    requires i < 5 && z == 0
    ensures Doubled(f, i, z) == 2 * (Value(f) - Part(LimbsOf(f), i)) - Weight(i) * LimbsOf(f)[i]
  {
    PartHeads(f, z);
  }

  lemma DoubledHigh(f: Fe, i: nat, z: nat)
    requires 5 <= i < 10 && z == 0
    ensures Doubled(f, i, z) == 2 * (Value(f) - Part(LimbsOf(f), i)) - Weight(i) * LimbsOf(f)[i]
  {
    PartHeads(f, z);
  }

  /** Row i of a square: every product of two different limbs is taken once, doubled. */
  method SquareOperand(f: Fe, i: nat, z: int, ghost sum: Ten -> int, ghost d: int) returns (s: Ten, ghost k: int)
    requires z == 0 && Loose(f) && i < 10 && IsSum(sum) && d == Doubled(f, i, z)
    ensures Bounded(s, 4207725750)
    ensures IsRow(d, i, sum(s), k)
  {
    if i < 3 {
      s, k := LowSquareOperand(f, i, z, sum, d);
    } else if i < 5 {
      s, k := MiddleSquareOperand(f, i, z, sum, d);
    } else {
      s, k := HighSquareOperand(f, i, z, sum, d);
    }
  }

  method LowSquareOperand(f: Fe, i: nat, z: int, ghost sum: Ten -> int, ghost d: int) returns (s: Ten, ghost k: int)
    requires z == 0 && Loose(f) && 0 <= i < 3 && IsSum(sum) && d == Doubled(f, i, z)
    ensures Bounded(s, 4207725750)
    ensures IsRow(d, i, sum(s), k)
  {
    var f0: int, f1: int, f2: int, f3: int, f4: int, f5: int, f6: int, f7: int, f8: int, f9: int :=
        f.l0, f.l1, f.l2, f.l3, f.l4, f.l5, f.l6, f.l7, f.l8, f.l9;
    var f8x19: i32, f9x38: i32 := f8 * 19, f9 * 38;
    match i {
    case 0 =>
      s := Ten(f0, 2 * f1, 2 * f2, 2 * f3, 2 * f4, 2 * f5, 2 * f6, 2 * f7, 2 * f8, 2 * f9);
      k := z;
    case 1 =>
      s := Ten(2 * f9x38, z, 2 * f1, 2 * f2, 4 * f3, 2 * f4, 4 * f5, 2 * f6, 4 * f7, 2 * f8);
      k := 0x4 * f9;
    case _ =>
      s := Ten(2 * f8x19, f9x38, z, z, f2, 2 * f3, 2 * f4, 2 * f5, 2 * f6, 2 * f7);
      k := 0x2 * f8 + 0x8000000 * f9;
    }
    assert SumAt(sum, s);
  }

  method MiddleSquareOperand(f: Fe, i: nat, z: int, ghost sum: Ten -> int, ghost d: int) returns (s: Ten, ghost k: int)
    requires z == 0 && Loose(f) && 3 <= i < 5 && IsSum(sum) && d == Doubled(f, i, z)
    ensures Bounded(s, 4207725750)
    ensures IsRow(d, i, sum(s), k)
  {
    var f3: int, f4: int, f5: int, f6: int, f7: int, f8: int, f9: int := f.l3, f.l4, f.l5, f.l6, f.l7, f.l8, f.l9;
    var f6x19: i32, f7x38: i32, f8x19: i32, f9x38: i32 := f6 * 19, f7 * 38, f8 * 19, f9 * 38;
    match i {
    case 3 =>
      s := Ten(2 * f7x38, 2 * f8x19, 2 * f9x38, z, z, z, 2 * f3, 2 * f4, 4 * f5, 2 * f6);
      k := 0x4 * f7 + 0x8000000 * f8 + 0x20000000000000 * f9;
    case _ =>
      s := Ten(2 * f6x19, f7x38, 2 * f8x19, f9x38, z, z, z, z, f4, 2 * f5);
      k := 0x2 * f6 + 0x8000000 * f7 + 0x10000000000000 * f8 + 0x40000000000000000000 * f9;
    }
    assert SumAt(sum, s);
  }

  method HighSquareOperand(f: Fe, i: nat, z: int, ghost sum: Ten -> int, ghost d: int) returns (s: Ten, ghost k: int)
    requires z == 0 && Loose(f) && 5 <= i < 10 && IsSum(sum) && d == Doubled(f, i, z)
    ensures Bounded(s, 4207725750)
    ensures IsRow(d, i, sum(s), k)
  {
    var f0: int, f1: int, f2: int, f3: int, f4: int, f5: int, f6: int, f7: int, f8: int, f9: int :=
        f.l0, f.l1, f.l2, f.l3, f.l4, f.l5, f.l6, f.l7, f.l8, f.l9;
    var f5x38: i32, f6x19: i32, f7x38: i32, f8x19: i32, f9x38: i32 := f5 * 38, f6 * 19, f7 * 38, f8 * 19, f9 * 38;
    match i {
    case 5 =>
      s := Ten(f5x38, 2 * f6x19, 2 * f7x38, 2 * f8x19, 2 * f9x38, z, z, z, z, z);
      k := 0x2 * f5 + 0x8000000 * f6 + 0x20000000000000 * f7 + 0x40000000000000000000 * f8
        + 0x100000000000000000000000000 * f9;
    case 6 =>
      s := Ten(z, z, f6x19, f7x38, 2 * f8x19, f9x38, z, z, z, z);
      k := 0x8000000000000 * f6 + 0x40000000000000000000 * f7 + 0x80000000000000000000000000 * f8
        + 0x200000000000000000000000000000000 * f9;
    case 7 =>
      s := Ten(z, z, z, z, f7x38, 2 * f8x19, 2 * f9x38, z, z, z);
      k := 0x80000000000000000000000000 * f7 + 0x200000000000000000000000000000000 * f8
        + 0x800000000000000000000000000000000000000 * f9;
    case 8 =>
      s := Ten(z, z, z, z, z, z, f8x19, f9x38, z, z);
      k := 0x200000000000000000000000000000000000000 * f8 + 0x1000000000000000000000000000000000000000000000 * f9;
    case _ =>
      s := Ten(z, z, z, z, z, z, z, z, f9x38, z);
      k := 0x2000000000000000000000000000000000000000000000000000 * f9;
    }
    assert SumAt(sum, s);
  }

  /** d is twice what limb i and those above it are worth, less the limb once. */
  ghost predicate DoubleAt(l: seq<int>, v: int, i: nat, d: int)
    requires i < 10 && |l| == 10
  {
    forall z {:trigger Look(z)} :: Look(z) ==> d == 2 * (v - Part(l, i)) - Weight(i) * l[i]
  }

  ghost predicate SquareRows(l: seq<int>, v: int, ds: seq<int>, ss: seq<int>, ks: seq<int>) {
    && |l| == 10 && |ss| == |ks| <= 10 && |ds| == 10
    && forall i :: 0 <= i < |ss| ==> DoubleAt(l, v, i, ds[i]) && IsRow(ds[i], i, ss[i], ks[i])
  }

  lemma SquareArith(t: int, y: int, v: int, q: int, f: int, s: int, c: int, k: int)
    requires t == y * (2 * v - y) - PTimes(q) && s == c * (2 * (v - y) - c * f) - PTimes(k)
    ensures t + f * s == (y + c * f) * (2 * v - (y + c * f)) - PTimes(q + f * k)
  {
    assert f * (c * (2 * (v - y) - c * f) - PTimes(k)) == (c * f) * (2 * (v - y) - c * f) - PTimes(f * k);
    assert (y + c * f) * (2 * v - (y + c * f)) == y * (2 * v - y) + (c * f) * (2 * (v - y) - c * f);
  }

  lemma SquareRowArith(t: int, y: int, v: int, q: int, f: int, s: int, c: int, k: int, d: int)
    requires t == y * (2 * v - y) - PTimes(q) && s == c * d - PTimes(k) && d == 2 * (v - y) - c * f
    ensures t + f * s == (y + c * f) * (2 * v - (y + c * f)) - PTimes(q + f * k)
  {
    SquareArith(t, y, v, q, f, s, c, k);
  }

  /** After n rows of a square, what is missing is the square of the limbs above them. */
  lemma {:induction false} SquareRowsValue(l: seq<int>, v: int, ds: seq<int>, ss: seq<int>, ks: seq<int>)
    returns (q: int)
    requires SquareRows(l, v, ds, ss, ks)
    ensures Dot(l, ss) == Part(l, |ss|) * (2 * v - Part(l, |ss|)) - PTimes(q)
    decreases |ss|
  {
    q := 0;
    if ss != [] {
      var n := |ss| - 1;
      q := SquareRowsValue(l, v, ds, ss[..n], ks[..n]);
      assert Look(0) && DoubleAt(l, v, n, ds[n]) && IsRow(ds[n], n, ss[n], ks[n]);
      SquareRowArith(Dot(l, ss[..n]), Part(l, n), v, q, l[n], ss[n], Weight(n), ks[n], ds[n]);
      q := q + l[n] * ks[n];
    }
  }

  lemma {:induction false} SquareResidue(l: seq<int>, v: int, ds: seq<int>, ss: seq<int>, ks: seq<int>)
    requires SquareRows(l, v, ds, ss, ks) && Part(l, |ss|) == v
    ensures ModP(Dot(l, ss)) == ModP(v * v)
  {
    var q := SquareRowsValue(l, v, ds, ss, ks);
    SquareDone(Dot(l, ss), v, v, q);
  }

  /** d is v^2 less (v - y)^2, less q times P. */
  ghost predicate SquareSum(d: int, y: int, v: int, q: int) {
    forall z {:trigger Look(z)} :: Look(z) ==> d == y * (2 * v - y) - PTimes(q)
  }

  lemma SquareDone(d: int, y: int, v: int, q: int)
    requires y == v && SquareSum(d, y, v, q)
    ensures ModP(d) == ModP(v * v)
  {
    assert Look(0);
    assert v * (2 * v - v) == v * v;
    ModShift(v * v, -q, P);
  }

  /** l[i] is limb i. */
  ghost predicate LimbAt(l: seq<int>, f: Fe, i: int) {
    forall z {:trigger Tick(z)} :: Tick(z) ==> (0 <= i < |l| == 10 ==> l[i] == LimbsOf(f)[i])
  }

  /** d is the doubled partner of limb i. */
  ghost predicate PartnerAt(f: Fe, z: int, i: int, d: int) {
    forall y {:trigger Tick(y)} :: Tick(y) ==> (z == 0 && 0 <= i < 10 ==> d == Doubled(f, i, z))
  }

  /** Adds row i of the square; even limbs are twice as wide as odd ones. */
  method AddSquareRow(t: Ten, l: seq<int>, f: Fe, i: nat, z: int, ghost b: int, ghost sum: Ten -> int, ghost d: int)
    returns (r: Ten, ghost s: int, ghost k: int)
    requires z == 0 && Loose(f) && i < 10 == |l| && LimbAt(l, f, i) && IsSum(sum) && PartnerAt(f, z, i, d)
    requires Bounded(t, b) && 0 <= b <= 0x3800_0000_0000_0000
    ensures Bounded(r, b + if i % 2 == 0 then 0x678_0000_0000_0000 else 0x33c_0000_0000_0000)
    ensures sum(r) == sum(t) + l[i] * s && IsRow(d, i, s, k)
  {
    var row;
    assert Tick(0);
    row, k := SquareOperand(f, i, z, sum, d);
    ghost var lMax := if i % 2 == 0 then 110729625 else 55364812;
    ghost var m := if i % 2 == 0 then 0x678_0000_0000_0000 else 0x33c_0000_0000_0000;
    LimbWidth(f, i);
    RowFits(l[i], lMax, row, 4207725750);
    r := Row(t, l[i], row, b, m);
    s := sum(row);
    AddedSum(t, l[i], row, r);
    assert SumAt(sum, t) && SumAt(sum, r) && SumAt(sum, row);
  }

  /** The doubled values, and what they are worth. */
  ghost predicate DoublesAt(f: Fe, l: seq<int>, z: int, v: int, ds: seq<int>, i: int) {
    0 <= i < |ds| == |l| == 10 ==> PartnerAt(f, z, i, ds[i]) && DoubleAt(l, v, i, ds[i])
  }

  ghost predicate Doubles(f: Fe, l: seq<int>, z: int, v: int, ds: seq<int>) {
    |ds| == 10 && forall i {:trigger DoublesAt(f, l, z, v, ds, i)} :: DoublesAt(f, l, z, v, ds, i)
  }

  lemma {:induction false} DoublesOf(f: Fe, z: nat, v: int) returns (ds: seq<int>)
    requires z == 0 && v == Value(f)
    ensures Doubles(f, LimbsOf(f), z, v, ds)
  {
    ds := seq(10, i requires 0 <= i < 10 => Doubled(f, i, z));
    forall i ensures DoublesAt(f, LimbsOf(f), z, v, ds, i) {
      if 0 <= i < 5 { DoubledLow(f, i, z); } else if 5 <= i < 10 { DoubledHigh(f, i, z); }
    }
  }

  lemma LimbWidth(f: Fe, i: nat)
    requires Loose(f) && i < 10
    ensures i % 2 == 0 ==> -110729625 <= LimbsOf(f)[i] <= 110729625
    ensures i % 2 == 1 ==> -55364812 <= LimbsOf(f)[i] <= 55364812
  {
  }

  lemma SquareRowsSnoc(l: seq<int>, v: int, ds: seq<int>, ss: seq<int>, ks: seq<int>, s: int, k: int)
    requires SquareRows(l, v, ds, ss, ks) && |ss| < 10
    requires DoubleAt(l, v, |ss|, ds[|ss|]) && IsRow(ds[|ss|], |ss|, s, k)
    ensures SquareRows(l, v, ds, ss + [s], ks + [k])
  {
  }

  method AccumulateSquare(f: Fe, l: seq<int>, z: nat, ghost sum: Ten -> int, ghost v: int, ghost ds: seq<int>)
    returns (t: Ten, ghost ss: seq<int>, ghost ks: seq<int>)
    requires z == 0 && Loose(f) && IsSum(sum) && Doubles(f, l, z, v, ds)
    requires |l| == 10 && forall i {:trigger LimbAt(l, f, i)} :: LimbAt(l, f, i)
    ensures Bounded(t, 0x3fff_ffff_ffff_ffff)
    ensures |ss| == 10 && SquareRows(l, v, ds, ss, ks) && sum(t) == Dot(l, ss)
  {
    t := Zero(0, sum);
    ghost var b := 0;
    ss, ks := [], [];
    for i := 0 to 10
      invariant |ss| == i && SquareRows(l, v, ds, ss, ks)
      invariant Bounded(t, b) && 0 <= b <= (3 * i + i % 2) * 0x19e_0000_0000_0000
      invariant sum(t) == Dot(l, ss)
    {
      ghost var s, k;
      assert DoublesAt(f, l, z, v, ds, i) && LimbAt(l, f, i);
      t, s, k := AddSquareRow(t, l, f, i, z, b, sum, ds[i]);
      DotSnoc(l, ss, s);
      SquareRowsSnoc(l, v, ds, ss, ks, s, k);
      b := b + if i % 2 == 0 then 0x678_0000_0000_0000 else 0x33c_0000_0000_0000;
      ss, ks := ss + [s], ks + [k];
    }
  }

  method Sq(f: Fe) returns (h: Fe)
    requires Loose(f)
    ensures Tight(h)
    ensures ModP(Value(h)) == ModP(Value(f) * Value(f))
  {
    ghost var ss, ks;
    var t;
    ghost var sum := (x: Ten) => SumOf(x);
    assert IsSum(sum);
    ghost var v := Value(f);
    ghost var ds := DoublesOf(f, 0, v);
    t, ss, ks := AccumulateSquare(f, LimbsOf(f), 0, sum, v, ds);
    assert SumAt(sum, t);
    PartAll(f, |ss|);
    SquareResidue(LimbsOf(f), v, ds, ss, ks);
    h := Carry(t.t0, t.t1, t.t2, t.t3, t.t4, t.t5, t.t6, t.t7, t.t8, t.t9);
  }

  /** t is x times f, limb by limb. */
  ghost predicate Times(t: Ten, x: int, f: Fe) {
    forall z {:trigger Look(z)} :: Look(z) ==>
      && t.t0 == x * f.l0 && t.t1 == x * f.l1 && t.t2 == x * f.l2 && t.t3 == x * f.l3 && t.t4 == x * f.l4
      && t.t5 == x * f.l5 && t.t6 == x * f.l6 && t.t7 == x * f.l7 && t.t8 == x * f.l8 && t.t9 == x * f.l9
  }

  lemma TimesSum(t: Ten, x: int, f: Fe)
    requires Times(t, x, f)
    ensures SumOf(t) == x * Value(f)
  {
    assert Look(0);
    SumScales(x, f.l0, f.l1, f.l2, f.l3, f.l4, f.l5, f.l6, f.l7, f.l8, f.l9);
  }

  method Scale(f: Fe, x: int) returns (t: Ten)
    requires Loose(f) && -0x8000_0000 <= x <= 0x8000_0000
    ensures Bounded(t, 0x400_0000_0000_0000) && Times(t, x, f)
  {
    AbsBound(x, 0x8000_0000, f.l0, 110729625);
    AbsBound(x, 0x8000_0000, f.l1, 110729625);
    AbsBound(x, 0x8000_0000, f.l2, 110729625);
    AbsBound(x, 0x8000_0000, f.l3, 110729625);
    AbsBound(x, 0x8000_0000, f.l4, 110729625);
    AbsBound(x, 0x8000_0000, f.l5, 110729625);
    AbsBound(x, 0x8000_0000, f.l6, 110729625);
    AbsBound(x, 0x8000_0000, f.l7, 110729625);
    AbsBound(x, 0x8000_0000, f.l8, 110729625);
    AbsBound(x, 0x8000_0000, f.l9, 110729625);
    t := Ten(x * f.l0, x * f.l1, x * f.l2, x * f.l3, x * f.l4, x * f.l5, x * f.l6, x * f.l7, x * f.l8, x * f.l9);
  }

  /** Multiplication by a 32-bit integer. */
  method MulSmall(f: Fe, g: i32) returns (h: Fe)
    requires Loose(f)
    ensures Tight(h)
    ensures ModP(Value(h)) == ModP(g * Value(f))
  {
    var t := Scale(f, g);
    TimesSum(t, g, f);
    h := Carry(t.t0, t.t1, t.t2, t.t3, t.t4, t.t5, t.t6, t.t7, t.t8, t.t9);
  }
}
