/** The division at the end of X25519: the inverse square root and the inverse modulo 2^255 - 19, which is prime, and
    the whole key exchange of section 5 of RFC 7748. */
module KeyExchange {
  import opened Words
  import opened Field25519
  import opened X25519
  import FieldPrime
  import Primality
  import ScalarModL

  // ---------- Powers of a residue ----------

  const HALF: nat := 0x3ffffffffffffffffffffffffffffffffffffffffffffffffffffffffffffff6     // (p - 1) / 2
  const QUARTER: nat := 0x1ffffffffffffffffffffffffffffffffffffffffffffffffffffffffffffffb  // (p - 1) / 4
  const EIGHTH: nat := 0xffffffffffffffffffffffffffffffffffffffffffffffffffffffffffffffd    // (p - 5) / 8

  /** The residue of the constant sqrtm1. */
  const ROOT: int := 0x2b8324804fc1df0b2b4d00993dfbd7a72f431806ad2fe478c4ee1b274a0ea0b0

  function Power(F: Field, x: int, n: nat): int {
    if n == 0 then 1 else F.mul(x, Power(F, x, n - 1))
  }

  ghost predicate PowAt(F: Field, pow: nat -> int, m: nat, n: nat) {
    F.mul(pow(m), pow(n)) == pow(m + n)
  }

  /** pow is the sequence of powers of x. */
  ghost predicate IsPow(F: Field, pow: nat -> int, x: int) {
    pow(0) == 1 && pow(1) == x && forall m, n {:trigger PowAt(F, pow, m, n)} :: PowAt(F, pow, m, n)
  }

  lemma MulRules(F: Field, x: int, y: int, z: int)
    requires IsField(F)
    ensures F.mul(x, y) == F.mul(y, x)
    ensures F.mul(F.mul(x, y), z) == F.mul(x, F.mul(y, z))
    ensures 0 <= F.mul(x, y) < P
    ensures 0 <= x < P ==> F.mul(1, x) == x && F.mul(x, 1) == x
  {
    assert MulAt(F, x, y) && MulAt(F, y, x) && MulAt(F, y, z) && MulAt(F, F.mul(x, y), z) && MulAt(F, x, F.mul(y, z));
    assert MulAt(F, 1, x) && MulAt(F, x, 1);
    Commute(x, y);
    ModMul(x * y, z, P);
    ModMul(y * z, x, P);
    Commute(ModP(y * z), x);
    Commute(y * z, x);
    Assoc(x, y, z);
    if 0 <= x < P { ModUnique(x, 0, P, x); }
  }

  lemma {:induction false} PowerAdd(F: Field, x: int, m: nat, n: nat)
    requires IsField(F)
    ensures 0 <= Power(F, x, n) < P && F.mul(Power(F, x, m), Power(F, x, n)) == Power(F, x, m + n)
    decreases m + n
  {
    if m > 0 {
      PowerAdd(F, x, m - 1, n);
      MulRules(F, x, Power(F, x, m - 1), Power(F, x, n));
    } else if n > 0 {
      PowerAdd(F, x, 0, n - 1);
      MulRules(F, x, Power(F, x, n - 1), 0);
      MulRules(F, Power(F, x, n), 0, 0);
    } else {
      MulRules(F, 1, 1, 1);
    }
  }

  ghost function Powers(F: Field, x: int): (pow: nat -> int)
    requires IsField(F) && 0 <= x < P
    ensures IsPow(F, pow, x)
  {
    var pow := (n: nat) => Power(F, x, n);
    PowersAre(F, x, pow);
    pow
  }

  lemma PowersAre(F: Field, x: int, pow: nat -> int)
    requires IsField(F) && 0 <= x < P && forall n {:trigger pow(n)} :: pow(n) == Power(F, x, n)
    ensures IsPow(F, pow, x)
  {
    MulRules(F, x, 1, 1);
    assert Power(F, x, 1) == F.mul(x, Power(F, x, 0));
    forall m: nat, n: nat ensures PowAt(F, pow, m, n) { PowerAdd(F, x, m, n); }
  }

  // ---------- The addition chain ----------

  method SqP(f: Fe, ghost F: Field, ghost pow: nat -> int, ghost x: int, ghost e: nat) returns (h: Fe)
    requires Tight(f) && IsField(F) && IsPow(F, pow, x) && F.res(f) == pow(e)
    ensures Tight(h) && F.res(h) == pow(2 * e)
  {
    h := SqF(f, F);
    assert PowAt(F, pow, e, e) && e + e == 2 * e;
  }

  method MulP(f: Fe, g: Fe, ghost F: Field, ghost pow: nat -> int, ghost x: int, ghost d: nat, ghost e: nat)
    returns (h: Fe)
    requires Tight(f) && Tight(g) && IsField(F) && IsPow(F, pow, x) && F.res(f) == pow(d) && F.res(g) == pow(e)
    ensures Tight(h) && F.res(h) == pow(d + e)
  {
    h := MulF(f, g, F);
    assert PowAt(F, pow, d, e);
  }

  /** n squarings in a row; w is 2^n. */
  method SqTimes(f: Fe, n: nat, ghost F: Field, ghost pow: nat -> int, ghost x: int, ghost e: nat, ghost w: nat)
    returns (h: Fe)
    requires Tight(f) && IsField(F) && IsPow(F, pow, x) && F.res(f) == pow(e) && w == Pow(2, n)
    ensures Tight(h) && F.res(h) == pow(w * e)
  {
    h := f;
    ghost var d := e;
    for i := 0 to n
      invariant Tight(h) && F.res(h) == pow(d) && d == Pow(2, i) * e
    {
      h := SqP(h, F, pow, x, d);
      Assoc(2, Pow(2, i), e);
      d := 2 * d;
    }
  }

  lemma PowersOfTwo(five: nat)
    requires five == 5
    ensures Pow(2, five) == 32 && Pow(2, 2 * five) == 1024 && Pow(2, 4 * five) == 0x100000
    ensures Pow(2, 10 * five) == 0x4000000000000 && Pow(2, 20 * five) == 0x10000000000000000000000000
  {
    assert Pow(2, five) == 32 by { assert Pow(2, 5) == 32; }
    PowAdd(2, five, five);
    PowAdd(2, 2 * five, 2 * five);
    PowAdd(2, 4 * five, 4 * five);
    PowAdd(2, 8 * five, 2 * five);
    PowAdd(2, 10 * five, 10 * five);
  }

  /** x to the power 2^5 - 1. */
  method FirstChain(x: Fe, ghost F: Field, ghost pow: nat -> int) returns (t0: Fe)
    requires Tight(x) && IsField(F) && IsPow(F, pow, F.res(x))
    ensures Tight(t0) && F.res(t0) == pow(31)
  {
    ghost var r := F.res(x);
    t0 := SqP(x, F, pow, r, 1);
    var t1 := SqP(t0, F, pow, r, 2);
    t1 := SqP(t1, F, pow, r, 4);
    t1 := MulP(x, t1, F, pow, r, 1, 8);
    t0 := MulP(t0, t1, F, pow, r, 2, 9);
    t0 := SqP(t0, F, pow, r, 11);
    t0 := MulP(t1, t0, F, pow, r, 9, 22);
  }

  /** x to the power 2^50 - 1. */
  method LowChain(x: Fe, five: nat, ghost F: Field, ghost pow: nat -> int) returns (t0: Fe)
    requires Tight(x) && IsField(F) && IsPow(F, pow, F.res(x)) && five == 5
    ensures Tight(t0) && F.res(t0) == pow(0x3ffffffffffff)
  {
    ghost var r := F.res(x);
    PowersOfTwo(five);
    t0 := FirstChain(x, F, pow);
    var t1 := SqTimes(t0, five, F, pow, r, 31, 32);
    t0 := MulP(t1, t0, F, pow, r, 0x3e0, 31);
    t1 := SqTimes(t0, 2 * five, F, pow, r, 0x3ff, 1024);
    t1 := MulP(t1, t0, F, pow, r, 0xffc00, 0x3ff);
    var t2 := SqTimes(t1, 4 * five, F, pow, r, 0xfffff, 0x100000);
    t1 := MulP(t2, t1, F, pow, r, 0xfffff00000, 0xfffff);
    t1 := SqTimes(t1, 2 * five, F, pow, r, 0xffffffffff, 1024);
    t0 := MulP(t1, t0, F, pow, r, 0x3fffffffffc00, 0x3ff);
  }

  /** x to the power (p - 5) / 8, which is 2^252 - 3. */
  method Chain(x: Fe, five: nat, ghost F: Field, ghost pow: nat -> int) returns (t0: Fe)
    requires Tight(x) && IsField(F) && IsPow(F, pow, F.res(x)) && five == 5
    ensures Tight(t0) && F.res(t0) == pow(EIGHTH)
  {
    ghost var r := F.res(x);
    PowersOfTwo(five);
    t0 := LowChain(x, five, F, pow);
    var t1 := SqTimes(t0, 10 * five, F, pow, r, 0x3ffffffffffff, 0x4000000000000);
    t1 := MulP(t1, t0, F, pow, r, 0xffffffffffff_c000000000000, 0x3ffffffffffff);
    var t2 := SqTimes(t1, 20 * five, F, pow, r, 0xfffffffffffffffffffffffff, 0x10000000000000000000000000);
    t1 := MulP(t2, t1, F, pow, r, 0xfffffffffffffffffffffffff0000000000000000000000000, 0xfffffffffffffffffffffffff);
    t1 := SqTimes(t1, 10 * five, F, pow, r, 0xffffffffffffffffffffffffffffffffffffffffffffffffff, 0x4000000000000);
    t0 := MulP(t1, t0, F, pow, r, 0x3fffffffffffffffffffffffffffffffffffffffffffffffffc000000000000, 0x3ffffffffffff);
    t0 := SqP(t0, F, pow, r, 0x3ffffffffffffffffffffffffffffffffffffffffffffffffffffffffffffff);
    t0 := SqP(t0, F, pow, r, 0x7fffffffffffffffffffffffffffffffffffffffffffffffffffffffffffffe);
    t0 := MulP(t0, x, F, pow, r, 0xffffffffffffffffffffffffffffffffffffffffffffffffffffffffffffffc, 1);
  }

  // ---------- Comparing ----------

  /** Numbers with equally many digits are equal digit by digit. */
  lemma {:induction false} LeUnique(s: seq<u8>, t: seq<u8>)
    requires |s| == |t| && Le(s) == Le(t)
    ensures s == t
    decreases |s|
  {
    if s != [] {
      var a: int, b: int := s[0], t[0];
      assert Le(s) == a + 256 * Le(s[1..]) && Le(t) == b + 256 * Le(t[1..]);
      assert a == b;
      LeUnique(s[1..], t[1..]);
      assert s == [s[0]] + s[1..] && t == [t[0]] + t[1..];
    }
  }

  method SameBytes(a: array<u8>, b: array<u8>) returns (same: bool)
    requires a.Length == b.Length
    ensures same <==> a[..] == b[..]
  {
    same := true;
    for i := 0 to a.Length
      invariant same <==> a[..i] == b[..i]
    {
      if a[i] != b[i] { same := false; }
      assert a[..i + 1] == a[..i] + [a[i]] && b[..i + 1] == b[..i] + [b[i]];
    }
    assert a[..a.Length] == a[..] && b[..b.Length] == b[..];
  }

  /** fe_isequal: equal residues, by their canonical bytes. */
  method IsEqual(f: Fe, g: Fe, ghost F: Field) returns (equal: bool)
    requires Tight(f) && Tight(g) && IsField(F)
    ensures equal <==> F.res(f) == F.res(g)
  {
    var fs, gs := new u8[32](_ => 0), new u8[32](_ => 0);
    ToBytes(fs, f);
    ToBytes(gs, g);
    assert ResAt(F, f) && ResAt(F, g);
    equal := SameBytes(fs, gs);
    if Le(fs[..]) == Le(gs[..]) { LeUnique(fs[..], gs[..]); }
  }

  /** fe_neg */
  method Negate(f: Fe, ghost F: Field) returns (h: Fe)
    requires Tight(f) && IsField(F) && F.res(f) > 0
    ensures Tight(h) && F.res(h) == P - F.res(f)
  {
    h := Fe(-f.l0, -f.l1, -f.l2, -f.l3, -f.l4, -f.l5, -f.l6, -f.l7, -f.l8, -f.l9);
    assert ResAt(F, f) && ResAt(F, h);
    NegResidue(Value(f), Value(h));
  }

  lemma NegResidue(x: int, y: int)
    requires y == -x && ModP(x) > 0
    ensures ModP(y) == P - ModP(x)
  {
    assert x == x / P * P + ModP(x);
    ModUnique(y, -(x / P) - 1, P, P - ModP(x));
  }

  method SqrtMinusOne(ghost F: Field) returns (h: Fe)
    requires IsField(F)
    ensures Tight(h) && F.res(h) == ROOT
  {
    h := Fe(-32595792, -7943725, 9377950, 3500415, 12389472, -272473, -25146209, -2005654, 326686, 11406482);
    assert ResAt(F, h);
    assert Value(h) == ROOT;
    ModUnique(ROOT, 0, P, ROOT);
  }

  // ---------- Modulo a prime ----------

  lemma IsPrime()
    ensures Primality.Prime(P)
  {
    FieldPrime.Prime255();
  }

  lemma {:induction false} PowIs(F: Field, pow: nat -> int, x: int, n: nat)
    requires IsField(F) && IsPow(F, pow, x)
    ensures pow(n) == Pow(x, n) % P
  {
    if n == 0 {
      ModUnique(1, 0, P, 1);
    } else {
      PowIs(F, pow, x, n - 1);
      assert PowAt(F, pow, 1, n - 1) && MulAt(F, x, pow(n - 1));
      ModMul(Pow(x, n - 1), x, P);
      Commute(x, pow(n - 1));
      Commute(x, Pow(x, n - 1));
    }
  }

  /** Fermat's theorem and Euler's criterion. */
  lemma FermatEuler(F: Field, pow: nat -> int, x: int)
    requires IsField(F) && IsPow(F, pow, x) && 0 < x < P
    ensures pow(P - 1) == 1 && (pow(HALF) == 1 || pow(HALF) == P - 1)
  {
    IsPrime();
    ModUnique(x, 0, P, x);
    Primality.Fermat(P, x);
    Primality.Euler(P, HALF, x);
    PowIs(F, pow, x, P - 1);
    PowIs(F, pow, x, HALF);
  }

  /** Numbers with the same square differ in their sign at most. */
  lemma SameSquare(F: Field, q: int, s: int)
    requires IsField(F) && 0 <= q < P && 0 < s < P && F.mul(q, q) == F.mul(s, s)
    ensures q == s || q == P - s
  {
    IsPrime();
    assert MulAt(F, q, q) && MulAt(F, s, s);
    Primality.DifferenceVanishes(q * q, s * s, P);
    assert q * q - s * s == (q - s) * (q + s);
    Primality.EuclidMod(P, q - s, q + s);
    if (q - s) % P == 0 { NearZero(q - s); } else { NearZero(q + s - P); Shifted(q + s); }
  }

  lemma NearZero(d: int)
    requires -P < d < P
    ensures d % P == 0 ==> d == 0
  {
    if d < 0 { ModUnique(d, -1, P, d + P); } else { ModUnique(d, 0, P, d); }
  }

  lemma Shifted(d: int)
    ensures (d - P) % P == d % P
  {
    ModShift(d, -1, P);
  }

  /** x to the power (p - 1) / 4 is a fourth root of 1. */
  lemma FourthRoots(F: Field, pow: nat -> int, x: int)
    requires IsField(F) && IsPow(F, pow, x) && 0 < x < P
    ensures var q := pow(QUARTER);
            && (pow(HALF) == 1 ==> q == 1 || q == P - 1)
            && (pow(HALF) == P - 1 ==> q == ROOT || q == P - ROOT)
  {
    var q := pow(QUARTER);
    assert PowAt(F, pow, QUARTER, QUARTER) && QUARTER + QUARTER == HALF;
    assert PowAt(F, pow, 1, QUARTER - 1);
    MulRules(F, pow(1), pow(QUARTER - 1), 0);
    RootSquared(F);
    if pow(HALF) == 1 { SameSquare(F, q, 1); }
    if pow(HALF) == P - 1 { SameSquare(F, q, ROOT); }
  }

  lemma RootSquared(F: Field)
    requires IsField(F)
    ensures F.mul(ROOT, ROOT) == P - 1 && F.mul(1, 1) == 1
  {
    assert MulAt(F, ROOT, ROOT) && ModP(ROOT * ROOT) == P - 1;
    MulRules(F, 1, 1, 1);
  }

  ghost predicate IsSquare(F: Field, x: int) {
    exists y :: 0 <= y < P && F.mul(y, y) == x
  }

  /** A number other than 0 is a square exactly if its power (p - 1) / 2 is 1. If it is one, any inverse square root of
      it shows that. */
  lemma SquareIff(F: Field, pow: nat -> int, x: int, isr: int)
    requires IsField(F) && IsPow(F, pow, x) && 0 < x < P
    requires pow(HALF) == 1 ==> F.mul(F.mul(isr, isr), x) == 1
    ensures IsSquare(F, x) <==> pow(HALF) == 1
  {
    if pow(HALF) == 1 {
      RootOf(F, x, isr);
      var y := F.mul(isr, x);
      assert 0 <= y < P && F.mul(y, y) == x;
    }
    if y :| 0 <= y < P && F.mul(y, y) == x {
      assert MulAt(F, 0, 0);
      PowerOfSquare(F, pow, x, y);
    }
  }

  lemma RootOf(F: Field, x: int, i: int)
    requires IsField(F) && 0 < x < P && F.mul(F.mul(i, i), x) == 1
    ensures var y := F.mul(i, x); 0 <= y < P && F.mul(y, y) == x
  {
    var y := F.mul(i, x);
    MulRules(F, i, x, y);
    MulRules(F, x, y, i);
    MulRules(F, y, x, i);
    MulRules(F, i, y, x);
    MulRules(F, i, i, x);
    MulRules(F, 1, x, 1);
    MulRules(F, x, 1, 1);
  }

  /** The power (p - 1) / 2 of a square is the power p - 1 of its root. */
  lemma PowerOfSquare(F: Field, pow: nat -> int, x: int, y: int)
    requires IsField(F) && IsPow(F, pow, x) && 0 < y < P && F.mul(y, y) == x
    ensures pow(HALF) == 1
  {
    var roots := Powers(F, y);
    var evens := Evens(F, roots, y);
    assert PowAt(F, roots, 1, 1);
    FermatEuler(F, roots, y);
    PowIs(F, pow, x, HALF);
    PowIs(F, evens, x, HALF);
    assert evens(HALF) == roots(2 * HALF) == roots(P - 1);
  }

  // ---------- Inverse square root ----------

  /** Multiplying by the root of -1 negates the square. */
  lemma Twist(F: Field, t: int, x: int)
    requires IsField(F)
    ensures var q, r := F.mul(F.mul(t, t), x), F.mul(t, ROOT);
            F.mul(F.mul(r, r), x) == F.mul(P - 1, q)
  {
    var r := F.mul(t, ROOT);
    RootSquared(F);
    MulRules(F, t, ROOT, r);
    MulRules(F, ROOT, r, t);
    MulRules(F, ROOT, t, ROOT);
    MulRules(F, t, F.mul(ROOT, r), x);
    MulRules(F, t, ROOT, ROOT);
    MulRules(F, F.mul(t, P - 1), t, x);
    MulRules(F, P - 1, F.mul(t, t), x);
    MulRules(F, P - 1, t, t);
    MulRules(F, t, P - 1, t);
    MulRules(F, t, t, P - 1);
  }

  lemma NegOf(F: Field, q: int)
    requires IsField(F)
    ensures q == P - 1 ==> F.mul(P - 1, q) == 1
    ensures q == P - ROOT ==> F.mul(P - 1, q) == ROOT
  {
    assert MulAt(F, P - 1, q);
    if q == P - 1 { ModUnique((P - 1) * (P - 1), P - 2, P, 1); }
    if q == P - ROOT { ModUnique((P - 1) * (P - ROOT), P - ROOT - 1, P, ROOT); }
  }

  /** invsqrt: the result is the inverse square root of a square other than 0, that of x over the root of -1 if x is not
      a square, and 0 for 0; and it says whether x is a square. */
  method InvSqrt(x: Fe, ghost F: Field) returns (isr: Fe, square: bool)
    requires Tight(x) && IsField(F)
    ensures Tight(isr) && (square <==> IsSquare(F, F.res(x)))
    ensures F.res(x) == 0 ==> F.res(isr) == 0
    ensures F.res(x) != 0 ==> F.mul(F.mul(F.res(isr), F.res(isr)), F.res(x)) == if square then 1 else ROOT
  {
    ghost var r := F.res(x);
    assert ResAt(F, x);
    ghost var pow := Powers(F, r);
    var t0 := Chain(x, 5, F, pow);
    var quartic := SqP(t0, F, pow, r, EIGHTH);
    quartic := MulP(quartic, x, F, pow, r, 2 * EIGHTH, 1);
    var p1, m1, ms;
    isr, p1, m1, ms := Choose(t0, quartic, F);
    var zero := Small(0, 0, F);
    var z0 := IsEqual(x, zero, F);
    square := p1 || m1 || z0;
    assert PowAt(F, pow, EIGHTH, EIGHTH) && PowAt(F, pow, 2 * EIGHTH, 1) && 2 * EIGHTH + 1 == QUARTER;
    if r == 0 {
      ZeroPowers(F, pow);
    } else {
      Chosen(F, pow, r, F.res(t0), F.res(isr), p1, m1, ms);
    }
  }

  /** The comparisons, and the conditional copy. */
  method Choose(t0: Fe, quartic: Fe, ghost F: Field) returns (isr: Fe, p1: bool, m1: bool, ms: bool)
    requires Tight(t0) && Tight(quartic) && IsField(F)
    ensures p1 == (F.res(quartic) == 1) && m1 == (F.res(quartic) == P - 1) && ms == (F.res(quartic) == P - ROOT)
    ensures Tight(isr) && F.res(isr) == if m1 || ms then F.mul(F.res(t0), ROOT) else F.res(t0)
  {
    var one := Small(1, 0, F);
    var root := SqrtMinusOne(F);
    p1 := IsEqual(quartic, one, F);
    var check := Negate(one, F);
    m1 := IsEqual(quartic, check, F);
    check := Negate(root, F);
    ms := IsEqual(quartic, check, F);
    isr := MulF(t0, root, F);
    if !(m1 || ms) { isr := t0; }
  }

  /** Zero to the powers (p - 5) / 8 and (p - 1) / 4 is zero. */
  lemma ZeroPowers(F: Field, pow: nat -> int)
    requires IsField(F) && IsPow(F, pow, 0)
    ensures pow(EIGHTH) == 0 && pow(QUARTER) == 0 && pow(P - 2) == 0 && IsSquare(F, 0)
  {
    assert PowAt(F, pow, 1, EIGHTH - 1) && PowAt(F, pow, 1, QUARTER - 1) && PowAt(F, pow, 1, P - 3);
    assert MulAt(F, 0, pow(EIGHTH - 1)) && MulAt(F, 0, pow(QUARTER - 1)) && MulAt(F, 0, pow(P - 3)) && MulAt(F, 0, 0);
  }

  /** Each of the four cases gives what is promised. */
  lemma Chosen(F: Field, pow: nat -> int, x: int, t: int, isr: int, p1: bool, m1: bool, ms: bool)
    requires IsField(F) && IsPow(F, pow, x) && 0 < x < P && t == pow(EIGHTH)
    requires p1 == (pow(QUARTER) == 1) && m1 == (pow(QUARTER) == P - 1) && ms == (pow(QUARTER) == P - ROOT)
    requires isr == if m1 || ms then F.mul(t, ROOT) else t
    ensures p1 || m1 <==> IsSquare(F, x)
    ensures F.mul(F.mul(isr, isr), x) == if p1 || m1 then 1 else ROOT
  {
    var q := pow(QUARTER);
    assert PowAt(F, pow, EIGHTH, EIGHTH) && PowAt(F, pow, 2 * EIGHTH, 1) && 2 * EIGHTH + 1 == QUARTER;
    assert F.mul(F.mul(t, t), x) == q;
    FermatEuler(F, pow, x);
    FourthRoots(F, pow, x);
    Twist(F, t, x);
    NegOf(F, q);
    SquareIff(F, pow, x, isr);
  }

  // ---------- Inverse ----------

  /** fe_invert: the inverse of x, or 0 for 0; as in the standard that is x to the power p - 2. */
  method Invert(x: Fe, ghost F: Field) returns (out: Fe)
    requires Tight(x) && IsField(F)
    ensures Tight(out) && 0 <= F.res(x) < P && F.res(out) == Powers(F, F.res(x))(P - 2)
    ensures F.mul(F.res(x), F.res(out)) == if F.res(x) == 0 then 0 else 1
  {
    ghost var r := F.res(x);
    assert ResAt(F, x);
    var y := SqF(x, F);
    assert ResAt(F, y);
    assert IsSquare(F, F.res(y));
    var isr, square := InvSqrt(y, F);
    var tmp := SqF(isr, F);
    out := MulF(tmp, x, F);
    assert ResAt(F, out);
    ghost var i, i2 := F.res(isr), F.res(tmp);
    MulRules(F, r, F.mul(i2, r), 0);
    MulRules(F, i2, r, r);
    if r == 0 {
      assert MulAt(F, 0, 0) && MulAt(F, i2, 0) && MulAt(F, 0, F.res(out));
      ZeroPowers(F, Powers(F, r));
    } else {
      SquareNotZero(F, r);
      InverseIsPower(F, Powers(F, r), r, F.res(out));
    }
  }

  lemma SquareNotZero(F: Field, x: int)
    requires IsField(F) && 0 < x < P
    ensures F.mul(x, x) != 0
  {
    IsPrime();
    assert MulAt(F, x, x);
    if F.mul(x, x) == 0 {
      Primality.EuclidMod(P, x, x);
      NearZero(x);
    }
  }

  /** The even powers of x are the powers of its square. */
  ghost function Evens(F: Field, pow: nat -> int, x: int): (evens: nat -> int)
    requires IsPow(F, pow, x)
    ensures IsPow(F, evens, pow(2)) && forall n: nat {:trigger evens(n)} :: evens(n) == pow(2 * n)
  {
    var evens := (n: nat) => pow(2 * n);
    EvensAre(F, pow, x, evens);
    evens
  }

  lemma EvensAre(F: Field, pow: nat -> int, x: int, evens: nat -> int)
    requires IsPow(F, pow, x) && forall n: nat {:trigger evens(n)} :: evens(n) == pow(2 * n)
    ensures IsPow(F, evens, pow(2))
  {
    forall m: nat, n: nat ensures PowAt(F, evens, m, n) {
      assert PowAt(F, pow, 2 * m, 2 * n) && 2 * m + 2 * n == 2 * (m + n);
    }
  }

  /** There is one inverse. */
  lemma InverseIsPower(F: Field, pow: nat -> int, x: int, y: int)
    requires IsField(F) && IsPow(F, pow, x) && 0 < x < P && 0 <= y < P && F.mul(x, y) == 1
    ensures y == pow(P - 2)
  {
    var w := pow(P - 2);
    FermatEuler(F, pow, x);
    assert PowAt(F, pow, 1, P - 2);
    PowRange(F, pow, x);
    MulRules(F, y, x, w);
    MulRules(F, x, y, w);
    MulRules(F, w, 1, 1);
    MulRules(F, y, 1, 1);
  }

  lemma PowRange(F: Field, pow: nat -> int, x: int)
    requires IsField(F) && IsPow(F, pow, x)
    ensures 0 <= pow(P - 2) < P
  {
    assert PowAt(F, pow, 1, P - 3);
    MulRules(F, pow(1), pow(P - 3), 0);
  }

  // ---------- The key exchange ----------

  /** crypto_x25519: the u-coordinate of the trimmed key times the point, as the standard computes it. */
  method SharedSecret(q: array<u8>, key: seq<u8>, point: seq<u8>)
    requires |key| == 32 && |point| == 32 && q.Length == 32
    modifies q
    ensures var F := Residues(); var u := ModP(Le(point) % TWO255);
            var k := ScalarModL.Trim(key);
            var s := LadderFrom(BitStep(F, u), u, k, 0, 255);
            ScalarModL.IsTrimmed(k, key) && 0 <= s.z2 < P && Le(q[..]) == F.mul(s.x2, Powers(F, s.z2)(P - 2))
  {
    ghost var u := ModP(Le(point) % TWO255);
    ghost var F := Residues();
    ScalarModL.TrimBits(key);
    var x2, z2 := ScalarMult(ScalarModL.Trim(key), point, 255, F, BitStep(F, u), u);
    var inverse := Invert(z2, F);
    x2 := MulF(x2, inverse, F);
    ToBytes(q, x2);
    assert ResAt(F, x2);
  }
}
