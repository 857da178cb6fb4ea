/** What the ladder of section 5 of RFC 7748 does: a step doubles one point and adds the two by the formulas of the
    Montgomery curve, and the bits of the scalar decide which multiple comes out. */
module MontgomeryLadder {
  import opened Words
  import opened Field25519
  import opened X25519
  import ScalarModL

  // ---------- Congruence ----------

  predicate Same(a: int, b: int) {
    (a - b) % P == 0
  }

  lemma SameMod(a: int)
    ensures Same(ModP(a), a)
  {
    ModUnique(ModP(a) - a, -(a / P), P, 0);
  }

  lemma SameSum(a: int, b: int, c: int)
    requires Same(a, b) && Same(b, c)
    ensures Same(a, c)
  {
    ModUnique(a - c, (a - b) / P + (b - c) / P, P, 0);
  }

  lemma SameAdd(F: Field, a: int, a': int, b: int, b': int)
    requires IsField(F) && Same(a, a') && Same(b, b')
    ensures Same(F.add(a, b), a' + b') && Same(F.sub(a, b), a' - b')
  {
    assert MulAt(F, a, b);
    SameMod(a + b);
    SameMod(a - b);
    ModUnique(a + b - (a' + b'), (a - a') / P + (b - b') / P, P, 0);
    ModUnique(a - b - (a' - b'), (a - a') / P - (b - b') / P, P, 0);
    SameSum(F.add(a, b), a + b, a' + b');
    SameSum(F.sub(a, b), a - b, a' - b');
  }

  lemma SameMul(F: Field, a: int, a': int, b: int, b': int)
    requires IsField(F) && Same(a, a') && Same(b, b')
    ensures Same(F.mul(a, b), a' * b')
  {
    assert MulAt(F, a, b);
    SameMod(a * b);
    var k, l := (a - a') / P, (b - b') / P;
    ProductApart(a, a', k, b, b', l, P);
    ModUnique(a * b - a' * b', k * b + a' * l, P, 0);
    SameSum(F.mul(a, b), a * b, a' * b');
  }

  lemma ProductApart(a: int, a': int, k: int, b: int, b': int, l: int, p: int)
    requires a == a' + k * p && b == b' + l * p
    ensures a * b - a' * b' == (k * b + a' * l) * p
  {
    assert a * b == a' * b + k * p * b;
    assert a' * b == a' * b' + a' * (l * p);
    Assoc(a', l, p);
    Assoc(k, p, b);
    Assoc(k, b, p);
    Commute(p, b);
  }

  lemma IsResidue(r: int, e: int)
    requires 0 <= r < P && Same(r, e)
    ensures r == ModP(e)
  {
    var k := (r - e) / P;
    assert r - e == k * P;
    ModUnique(e, -k, P, r);
  }

  // ---------- The formulas of a step ----------

  lemma RfcStepRange(F: Field, x1: int, s: Ladder)
    requires IsField(F)
    ensures var t := RfcStep(F, x1, s); 0 <= t.x2 < P && 0 <= t.z2 < P && 0 <= t.x3 < P && 0 <= t.z3 < P
  {
    var a, b := F.add(s.x2, s.z2), F.sub(s.x2, s.z2);
    var aa, bb := F.mul(a, a), F.mul(b, b);
    var e := F.sub(aa, bb);
    var da, cb := F.mul(F.sub(s.x3, s.z3), a), F.mul(F.add(s.x3, s.z3), b);
    var p, m := F.add(da, cb), F.sub(da, cb);
    assert MulAt(F, aa, bb) && MulAt(F, e, F.add(aa, F.mul(121665, e))) && MulAt(F, p, p) && MulAt(F, x1, F.mul(m, m));
  }

  /** Doubling (x : z) on the curve v^2 = u^3 + 486662 u^2 + u. */
  lemma Doubles(F: Field, x1: int, s: Ladder)
    requires IsField(F)
    ensures var t, x, z := RfcStep(F, x1, s), s.x2, s.z2;
            && t.x2 == ModP((x * x - z * z) * (x * x - z * z))
            && t.z2 == ModP(4 * (x * z) * (x * x + 486662 * (x * z) + z * z))
  {
    var x, z := s.x2, s.z2;
    var a, b := F.add(x, z), F.sub(x, z);
    var aa, bb := F.mul(a, a), F.mul(b, b);
    var e := F.sub(aa, bb);
    SameAdd(F, x, x, z, z);
    SameMul(F, a, x + z, a, x + z);
    SameMul(F, b, x - z, b, x - z);
    SameMul(F, aa, (x + z) * (x + z), bb, (x - z) * (x - z));
    SameAdd(F, aa, (x + z) * (x + z), bb, (x - z) * (x - z));
    Squares(x, z);
    SameMul(F, 121665, 121665, e, 4 * (x * z));
    var f := F.mul(121665, e);
    SameAdd(F, aa, x * x + 2 * (x * z) + z * z, f, 121665 * (4 * (x * z)));
    SameMul(F, e, 4 * (x * z), F.add(aa, f), x * x + 486662 * (x * z) + z * z);
    RfcStepRange(F, x1, s);
    IsResidue(RfcStep(F, x1, s).x2, (x * x - z * z) * (x * x - z * z));
    IsResidue(RfcStep(F, x1, s).z2, 4 * (x * z) * (x * x + 486662 * (x * z) + z * z));
  }

  lemma Squares(x: int, z: int)
    ensures (x + z) * (x + z) == x * x + 2 * (x * z) + z * z && (x - z) * (x - z) == x * x - 2 * (x * z) + z * z
    ensures (x + z) * (x + z) * ((x - z) * (x - z)) == (x * x - z * z) * (x * x - z * z)
  {
    assert (x + z) * (x - z) == x * x - z * z;
    var u, v := x + z, x - z;
    assert u * u * (v * v) == u * v * (u * v);
  }

  /** Adding the two points, whose difference has the coordinate x1. */
  lemma Adds(F: Field, x1: int, s: Ladder)
    requires IsField(F)
    ensures var t, x, z, u, v := RfcStep(F, x1, s), s.x2, s.z2, s.x3, s.z3;
            && t.x3 == ModP(4 * ((x * u - z * v) * (x * u - z * v)))
            && t.z3 == ModP(x1 * (4 * ((x * v - z * u) * (x * v - z * u))))
  {
    var x, z, u, v := s.x2, s.z2, s.x3, s.z3;
    var a, b, c, d := F.add(x, z), F.sub(x, z), F.add(u, v), F.sub(u, v);
    var da, cb := F.mul(d, a), F.mul(c, b);
    var p, m := F.add(da, cb), F.sub(da, cb);
    SameAdd(F, x, x, z, z);
    SameAdd(F, u, u, v, v);
    SameMul(F, d, u - v, a, x + z);
    SameMul(F, c, u + v, b, x - z);
    SameAdd(F, da, (u - v) * (x + z), cb, (u + v) * (x - z));
    Crossed(x, z, u, v);
    SameMul(F, p, 2 * (x * u - z * v), p, 2 * (x * u - z * v));
    SameMul(F, m, -2 * (x * v - z * u), m, -2 * (x * v - z * u));
    Quadruple(x * u - z * v);
    Quadruple(x * v - z * u);
    SameMul(F, x1, x1, F.mul(m, m), 4 * ((x * v - z * u) * (x * v - z * u)));
    RfcStepRange(F, x1, s);
    IsResidue(RfcStep(F, x1, s).x3, 4 * ((x * u - z * v) * (x * u - z * v)));
    IsResidue(RfcStep(F, x1, s).z3, x1 * (4 * ((x * v - z * u) * (x * v - z * u))));
  }

  lemma Crossed(x: int, z: int, u: int, v: int)
    ensures (u - v) * (x + z) + (u + v) * (x - z) == 2 * (x * u - z * v)
    ensures (u - v) * (x + z) - (u + v) * (x - z) == -2 * (x * v - z * u)
  {
    assert (u - v) * (x + z) == x * u + z * u - x * v - z * v;
    assert (u + v) * (x - z) == x * u - z * u + x * v - z * v;
  }

  lemma Quadruple(y: int)
    ensures (2 * y) * (2 * y) == 4 * (y * y) && (-2 * y) * (-2 * y) == 4 * (y * y)
  {
  }

  // ---------- Which multiple ----------

  /** stands(n, x, z) says that (x : z) stands for n times the point. If a step doubles the one multiple and adds the
      two when they are neighbours, .. */
  ghost predicate Respects(stands: (int, int, int) -> bool, F: Field, x1: int) {
    forall n, m, s {:trigger RespectsAt(stands, F, x1, n, m, s)} :: RespectsAt(stands, F, x1, n, m, s)
  }

  ghost predicate RespectsAt(stands: (int, int, int) -> bool, F: Field, x1: int, n: int, m: int, s: Ladder) {
    stands(n, s.x2, s.z2) && stands(m, s.x3, s.z3) && (m == n + 1 || n == m + 1) ==>
      var t := RfcStep(F, x1, s); stands(2 * n, t.x2, t.z2) && stands(n + m, t.x3, t.z3)
  }

  /** .. then the ladder ends with the multiple that the bits of the scalar spell. */
  lemma {:induction false} LadderMultiplies(stands: (int, int, int) -> bool, F: Field, x1: int,
                                            step: (Ladder, int) -> Ladder, scalar: seq<u8>, i: nat, top: nat)
    requires Respects(stands, F, x1) && stands(0, 1, 0) && stands(1, x1, 1) && IsStep(step, F, x1)
    requires |scalar| == 32 && i <= top <= 256 && High(scalar, top) == 0
    ensures var s, n := LadderFrom(step, x1, scalar, i, top), High(scalar, i);
            stands(n, s.x2, s.z2) && stands(n + 1, s.x3, s.z3)
    decreases top - i
  {
    if i < top {
      LadderMultiplies(stands, F, x1, step, scalar, i + 1, top);
      var s, n, b := LadderFrom(step, x1, scalar, i + 1, top), High(scalar, i + 1), ScalarBit(scalar, i);
      assert LadderFrom(step, x1, scalar, i, top) == step(s, b) && High(scalar, i) == 2 * n + b;
      BitMultiplies(stands, F, x1, step, s, n, b);
    }
  }

  /** One bit doubles, and adds one if it is set. */
  lemma BitMultiplies(stands: (int, int, int) -> bool, F: Field, x1: int, step: (Ladder, int) -> Ladder, s: Ladder,
                      n: int, b: int)
    requires Respects(stands, F, x1) && IsStep(step, F, x1) && 0 <= b <= 1
    requires stands(n, s.x2, s.z2) && stands(n + 1, s.x3, s.z3)
    ensures var t := step(s, b); stands(2 * n + b, t.x2, t.z2) && stands(2 * n + b + 1, t.x3, t.z3)
  {
    assert StepAt(step, F, x1, s, b);
    if b == 1 {
      assert RespectsAt(stands, F, x1, n + 1, n, s.Swap());
    } else {
      assert RespectsAt(stands, F, x1, n, n + 1, s);
    }
  }

  /** The ladder of the key exchange ends with the multiple by the trimmed key. */
  lemma KeyMultiplies(stands: (int, int, int) -> bool, F: Field, x1: int, key: seq<u8>)
    requires Respects(stands, F, x1) && stands(0, 1, 0) && stands(1, x1, 1) && |key| == 32
    ensures var k := ScalarModL.Trim(key);
            var s := LadderFrom(BitStep(F, x1), x1, k, 0, 255);
            stands(Le(k), s.x2, s.z2)
  {
    var k := ScalarModL.Trim(key);
    ScalarModL.TrimBits(key);
    assert ScalarBit(k, 255) == 0 && High(k, 255) == 0;
    LadderMultiplies(stands, F, x1, BitStep(F, x1), k, 0, 255);
    HighBytes(k, 0);
    assert k[0..] == k;
  }
}
