/** The Poly1305 one-time authenticator: the incremental interface and the
    32-bit limb arithmetic behind it, proved against the polynomial of
    section 2.5 of RFC 8439. */
module Poly1305 {
  import opened Guards
  import opened Words

  const P: int := 0x3_ffffffff_ffffffff_ffffffff_fffffffb // 2^130 - 5
  const TOP: int := 0x1_0000_0000_0000_0000_0000_0000_0000_0000 // 2^128

  function Residue(x: int): int { x % 0x3_ffffffff_ffffffff_ffffffff_fffffffb }

  // ---------- The polynomial of RFC 8439 ----------

  /** A block read as a number, with the bit that marks its end. */
  function Block(b: seq<u8>): int { Le(b) + Pow(256, |b|) }

  /** The state after absorbing msg block by block with the step f, starting from a. */
  function Absorb(f: (int, seq<u8>) -> int, a: int, msg: seq<u8>): int
    decreases |msg|
  {
    if msg == [] then a
    else
      var n := if |msg| < 16 then |msg| else 16;
      Absorb(f, f(a, msg[..n]), msg[n..])
  }

  /** One step of the accumulator: add the block, multiply by r. */
  function Poly(r: int): (int, seq<u8>) -> int {
    (a: int, b: seq<u8>) => Residue((a + Block(b)) * r)
  }

  /** Key bytes 3, 7, 11, 15 lose their top four bits; bytes 4, 8, 12 their bottom two. */
  function ClampByte(i: nat, b: u8): u8 {
    if i % 4 == 3 then b % 16 else if i == 4 || i == 8 || i == 12 then b - b % 4 else b
  }

  function Clamped(key: seq<u8>): (r: seq<u8>)
    requires |key| >= 16
  {
    seq(16, i requires 0 <= i < 16 => ClampByte(i, key[i]))
  }

  /** The tag RFC 8439 assigns to msg under a 32-byte key. */
  function Tag(key: seq<u8>, msg: seq<u8>): int
    requires |key| == 32
  {
    (Absorb(Poly(Le(Clamped(key))), 0, msg) + Le(key[16..])) % TOP
  }

  /** Whole blocks can be absorbed before the rest. */
  lemma {:induction false} AbsorbAppend(f: (int, seq<u8>) -> int, a: int, x: seq<u8>, y: seq<u8>)
    requires |x| % 16 == 0
    ensures Absorb(f, a, x + y) == Absorb(f, Absorb(f, a, x), y)
    decreases |x|
  {
    if x == [] {
      assert x + y == y;
    } else {
      assert (x + y)[..16] == x[..16] && (x + y)[16..] == x[16..] + y;
      AbsorbAppend(f, f(a, x[..16]), x[16..], y);
    }
  }

  lemma AbsorbNext(f: (int, seq<u8>) -> int, a: int, input: seq<u8>, i: nat)
    requires 16 * i + 16 <= |input|
    ensures Absorb(f, a, input[..16 * (i + 1)]) == f(Absorb(f, a, input[..16 * i]), input[16 * i..16 * i + 16])
  {
    AbsorbAppend(f, a, input[..16 * i], input[16 * i..16 * i + 16]);
    AbsorbOne(f, Absorb(f, a, input[..16 * i]), input[16 * i..16 * i + 16]);
    assert input[..16 * i] + input[16 * i..16 * i + 16] == input[..16 * (i + 1)];
  }

  lemma AbsorbOne(f: (int, seq<u8>) -> int, a: int, b: seq<u8>)
    requires 0 < |b| <= 16
    ensures Absorb(f, a, b) == f(a, b)
  {
    assert b[..|b|] == b && b[|b|..] == [];
  }

  ghost predicate StepAt(f: (int, seq<u8>) -> int, r: int, a: int, b: seq<u8>) {
    f(a, b) == Residue((a + Block(b)) * r)
  }

  /** f is the step of the polynomial at r. */
  ghost predicate IsStep(f: (int, seq<u8>) -> int, r: int) {
    forall a, b {:trigger StepAt(f, r, a, b)} :: StepAt(f, r, a, b)
  }

  lemma PolyIsStep(r: int)
    ensures IsStep(Poly(r), r)
  {
    forall a, b ensures StepAt(Poly(r), r, a, b) { }
  }

  ghost predicate BlockAt(g: (int, seq<u8>) -> int, r: int, end: int, a: int, b: seq<u8>) {
    |b| == 16 ==> g(a, b) == Residue((a + (Le(b) + end * TOP)) * r)
  }

  /** g is what poly_blocks does to one 16-byte block under the given end bit. */
  ghost predicate IsBlockStep(g: (int, seq<u8>) -> int, r: int, end: int) {
    forall a, b {:trigger BlockAt(g, r, end, a, b)} :: BlockAt(g, r, end, a, b)
  }

  /** With the end bit set, poly_blocks takes the steps of the polynomial. */
  lemma StepIsBlockStep(f: (int, seq<u8>) -> int, r: int)
    requires IsStep(f, r)
    ensures IsBlockStep(f, r, 1)
  {
    forall a, b ensures BlockAt(f, r, 1, a, b) {
      assert StepAt(f, r, a, b);
      Pow16();
    }
  }

  /** The step for a block padded by hand. */
  function Padded(r: int): (int, seq<u8>) -> int {
    (a: int, b: seq<u8>) => Residue((a + Le(b)) * r)
  }

  lemma PaddedIsBlockStep(r: int)
    ensures IsBlockStep(Padded(r), r, 0)
  {
    forall a, b ensures BlockAt(Padded(r), r, 0, a, b) { }
  }

  lemma {:induction false} AbsorbAgrees(f: (int, seq<u8>) -> int, r: int, a: int, msg: seq<u8>)
    requires IsStep(f, r)
    ensures Absorb(f, a, msg) == Absorb(Poly(r), a, msg)
    decreases |msg|
  {
    if msg != [] {
      var n := if |msg| < 16 then |msg| else 16;
      assert StepAt(f, r, a, msg[..n]);
      AbsorbAgrees(f, r, f(a, msg[..n]), msg[n..]);
    }
  }

  lemma Pow16() ensures Pow(256, 16) == TOP
  {
    assert Pow(256, 4) == 0x1_0000_0000;
    PowAdd(256, 4, 4);
    PowAdd(256, 8, 8);
  }

  // ---------- Limbs ----------

  function Value(x0: int, x1: int, x2: int, x3: int, x4: int): int {
    x0 + 0x1_0000_0000 * x1 + 0x1_0000_0000_0000_0000 * x2 + 0x1_0000_0000_0000_0000_0000_0000 * x3
    + 0x1_0000_0000_0000_0000_0000_0000_0000_0000 * x4
  }

  function Hash(h: seq<u32>): int
    requires |h| == 5
  {
    Value(h[0], h[1], h[2], h[3], h[4])
  }

  predicate HashLimbs(h: seq<u32>) { |h| == 5 && h[4] <= 4 }

  predicate ClampedLimbs(r: seq<u32>) {
    && |r| == 4 && r[0] <= 0x0fffffff && r[1] <= 0x0ffffffc && r[2] <= 0x0ffffffc && r[3] <= 0x0ffffffc
    && r[1] % 4 == 0 && r[2] % 4 == 0 && r[3] % 4 == 0
  }

  function RValue(r: seq<u32>): int
    requires |r| == 4
  {
    Value(r[0], r[1], r[2], r[3], 0)
  }

  /** Sixteen bytes are four limbs. */
  lemma Le16(s: seq<u8>)
    requires |s| == 16
    ensures Le(s) == Value(Load32(s, 0), Load32(s, 4), Load32(s, 8), Load32(s, 12), 0)
  {
    LeLoad32(s);
    LeLoad32(s[4..]);
    LeLoad32(s[8..]);
    LeLoad32(s[12..]);
    assert s[4..][4..] == s[8..] && s[8..][4..] == s[12..] && s[12..][4..] == [];
  }

  lemma MaskLimb(a: int, b: int, c: int, d: int)
    requires 0 <= a < 256 && 0 <= b < 256 && 0 <= c < 256 && 0 <= d < 256
    ensures (a + 0x100 * b + 0x1_0000 * c + 0x100_0000 * d) % 0x1000_0000
         == a + 0x100 * b + 0x1_0000 * c + 0x100_0000 * (d % 16)
    ensures (a + 0x100 * b + 0x1_0000 * c + 0x100_0000 * (d % 16)) / 4 * 4
         == (a - a % 4) + 0x100 * b + 0x1_0000 * c + 0x100_0000 * (d % 16)
  {
    var low, q, e := a + 0x100 * b + 0x1_0000 * c, d / 16, d % 16;
    ModUnique(low + 0x100_0000 * d, q, 0x1000_0000, low + 0x100_0000 * e);
    ModUnique(low + 0x100_0000 * e, a / 4 + 0x40 * b + 0x4000 * c + 0x40_0000 * e, 4, a % 4);
  }

  lemma ClampedBytes(key: seq<u8>, i: nat)
    requires |key| >= 16 && i < 4
    ensures var b := Clamped(key);
            && b[4 * i] == (if i == 0 then key[4 * i] else key[4 * i] - key[4 * i] % 4)
            && b[4 * i + 1] == key[4 * i + 1] && b[4 * i + 2] == key[4 * i + 2]
            && b[4 * i + 3] == key[4 * i + 3] % 16
  {
  }

  /** The two lowest bits cleared. */
  function Quads(y: int): (x: int)
    ensures x <= y < x + 4 && x % 4 == 0
  {
    y / 4 * 4
  }

  lemma MaskedWord(key: seq<u8>, i: nat)
    requires |key| >= 16 && i < 4
    ensures var y := Load32(key, 4 * i) % 0x1000_0000;
            Load32(Clamped(key), 4 * i) == if i == 0 then y else Quads(y)
  {
    ClampedBytes(key, i);
    MaskLimb(key[4 * i], key[4 * i + 1], key[4 * i + 2], key[4 * i + 3]);
  }

  /** One key limb masked, as the code does, is four key bytes clamped, as the standard does. */
  method MaskedLimb(key: seq<u8>, i: nat) returns (x: u32)
    requires |key| >= 16 && i < 4
    ensures x == Load32(Clamped(key), 4 * i)
    ensures x <= (if i == 0 then 0x0fffffff else 0x0ffffffc) && (i != 0 ==> x % 4 == 0)
  {
    MaskedWord(key, i);
    x := Load32(key, 4 * i) % 0x1000_0000;
    if i != 0 {
      x := Quads(x);
    }
  }

  method LoadR(key: seq<u8>) returns (r: seq<u32>)
    requires |key| >= 16
    ensures ClampedLimbs(r)
    ensures RValue(r) == Le(Clamped(key))
  {
    var r0 := MaskedLimb(key, 0);
    var r1 := MaskedLimb(key, 1);
    var r2 := MaskedLimb(key, 2);
    var r3 := MaskedLimb(key, 3);
    r := [r0, r1, r2, r3];
    Le16(Clamped(key));
  }

  method LoadPad(key: seq<u8>) returns (pad: seq<u32>)
    requires |key| == 32
    ensures |pad| == 4 && RValue(pad) == Le(key[16..])
  {
    var t := key[16..];
    pad := [Load32(t, 0), Load32(t, 4), Load32(t, 8), Load32(t, 12)];
    Le16(t);
  }

  // ---------- One block ----------

  /** Folding the limbs above 2^128 down by 2^130 = 5 (mod P). */
  lemma ProductFolds(s0: int, s1: int, s2: int, s3: int, s4: int, q0: int, e: int, q1: int, q2: int, q3: int)
    ensures Value(s0, s1, s2, s3, s4) * Value(4 * q0 + e, 4 * q1, 4 * q2, 4 * q3, 0)
         == Value(s0 * (4 * q0 + e) + s1 * (5 * q3) + s2 * (5 * q2) + s3 * (5 * q1) + s4 * (5 * q0),
                  s0 * (4 * q1) + s1 * (4 * q0 + e) + s2 * (5 * q3) + s3 * (5 * q2) + s4 * (5 * q1),
                  s0 * (4 * q2) + s1 * (4 * q1) + s2 * (4 * q0 + e) + s3 * (5 * q3) + s4 * (5 * q2),
                  s0 * (4 * q3) + s1 * (4 * q2) + s2 * (4 * q1) + s3 * (4 * q0 + e) + s4 * (5 * q3),
                  s4 * e)
            + Value(s1 * q3 + s2 * q2 + s3 * q1 + s4 * q0, s2 * q3 + s3 * q2 + s4 * q1,
                    s3 * q3 + s4 * q2, s4 * q3, 0) * P
  {
  }

  lemma ModEqual(x: int, y: int, k: int)
    requires x == y + k * P
    ensures Residue(x) == Residue(y)
  {
    ModShift(y, k, P);
  }

  lemma ProductResidue(s0: int, s1: int, s2: int, s3: int, s4: int, r0: int, r1: int, r2: int, r3: int,
                       q0: int, e: int, q1: int, q2: int, q3: int, x0: int, x1: int, x2: int, x3: int, x4: int)
    requires r0 == 4 * q0 + e && r1 == 4 * q1 && r2 == 4 * q2 && r3 == 4 * q3
    requires x0 == s0 * r0 + s1 * (5 * q3) + s2 * (5 * q2) + s3 * (5 * q1) + s4 * (5 * q0)
    requires x1 == s0 * r1 + s1 * r0 + s2 * (5 * q3) + s3 * (5 * q2) + s4 * (5 * q1)
    requires x2 == s0 * r2 + s1 * r1 + s2 * r0 + s3 * (5 * q3) + s4 * (5 * q2)
    requires x3 == s0 * r3 + s1 * r2 + s2 * r1 + s3 * r0 + s4 * (5 * q3)
    requires x4 == s4 * e
    ensures Residue(Value(s0, s1, s2, s3, s4) * Value(r0, r1, r2, r3, 0)) == Residue(Value(x0, x1, x2, x3, x4))
  {
    ProductFolds(s0, s1, s2, s3, s4, q0, e, q1, q2, q3);
    ModEqual(Value(s0, s1, s2, s3, s4) * Value(r0, r1, r2, r3, 0), Value(x0, x1, x2, x3, x4),
             Value(s1 * q3 + s2 * q2 + s3 * q1 + s4 * q0, s2 * q3 + s3 * q2 + s4 * q1, s3 * q3 + s4 * q2, s4 * q3, 0));
  }

  /** A sum of four 33-by-29-bit products and one small one fits a u64. */
  lemma DotBound(a0: int, b0: int, a1: int, b1: int, a2: int, b2: int, a3: int, b3: int, a4: int, b4: int)
    requires 0 <= a0 <= 0x1_ffff_fffe && 0 <= a1 <= 0x1_ffff_fffe
    requires 0 <= a2 <= 0x1_ffff_fffe && 0 <= a3 <= 0x1_ffff_fffe
    requires 0 <= a4 <= 5 && 0 <= b4 <= 0x1400_0000
    requires 0 <= b0 && 0 <= b1 && 0 <= b2 && 0 <= b3
    ensures 0 <= a0 * b0 && 0 <= a1 * b1 && 0 <= a2 * b2 && 0 <= a3 * b3 && 0 <= a4 * b4
    ensures a0 * b0 + a1 * b1 + a2 * b2 + a3 * b3 + a4 * b4 <= 0x2_0000_0000 * (b0 + b1 + b2 + b3) + 0x6400_0000
  {
    MulBound(a0, 0x1_ffff_fffe, b0, b0);
    MulBound(a1, 0x1_ffff_fffe, b1, b1);
    MulBound(a2, 0x1_ffff_fffe, b2, b2);
    MulBound(a3, 0x1_ffff_fffe, b3, b3);
    MulBound(a4, 5, b4, 0x1400_0000);
  }

  /** (h + c) * r without carry propagation: five sums of products, none of which overflows. */
  method Multiply(s0: u64, s1: u64, s2: u64, s3: u64, s4: u32, r0: u32, r1: u32, r2: u32, r3: u32)
    returns (x0: u64, x1: u64, x2: u64, x3: u64, x4: u32)
    requires s0 <= 0x1_ffff_fffe && s1 <= 0x1_ffff_fffe && s2 <= 0x1_ffff_fffe && s3 <= 0x1_ffff_fffe && s4 <= 5
    requires ClampedLimbs([r0, r1, r2, r3])
    ensures x0 < 0xa000_0000_0000_0000 && x3 < 0x8000_0010_0000_0000 && x4 <= 15
    ensures Residue(Value(s0, s1, s2, s3, s4) * Value(r0, r1, r2, r3, 0)) == Residue(Value(x0, x1, x2, x3, x4))
  {
    var rr0: u32, rr1: u32, rr2: u32, rr3: u32, rr4: u32 := r0 / 4 * 5, r1 / 4 + r1, r2 / 4 + r2, r3 / 4 + r3, r0 % 4;
    DotBound(s0, r0, s1, rr3, s2, rr2, s3, rr1, s4, rr0);
    x0 := s0 * r0 + s1 * rr3 + s2 * rr2 + s3 * rr1 + s4 * rr0;
    DotBound(s0, r1, s1, r0, s2, rr3, s3, rr2, s4, rr1);
    x1 := s0 * r1 + s1 * r0 + s2 * rr3 + s3 * rr2 + s4 * rr1;
    DotBound(s0, r2, s1, r1, s2, r0, s3, rr3, s4, rr2);
    x2 := s0 * r2 + s1 * r1 + s2 * r0 + s3 * rr3 + s4 * rr2;
    DotBound(s0, r3, s1, r2, s2, r1, s3, r0, s4, rr3);
    x3 := s0 * r3 + s1 * r2 + s2 * r1 + s3 * r0 + s4 * rr3;
    MulBound(s4, 5, rr4, 3);
    x4 := s4 * rr4;
    ProductResidue(s0, s1, s2, s3, s4, r0, r1, r2, r3, r0 / 4, r0 % 4, r1 / 4, r2 / 4, r3 / 4, x0, x1, x2, x3, x4);
  }

  /** Partial reduction modulo 2^130 - 5: the carries end with the top limb at most 4. */
  method Reduce(x0: u64, x1: u64, x2: u64, x3: u64, x4: u32) returns (h0: u32, h1: u32, h2: u32, h3: u32, h4: u32)
    requires x0 < 0xa000_0000_0000_0000 && x3 < 0x8000_0010_0000_0000 && x4 <= 15
    ensures h4 <= 4
    ensures Residue(Value(h0, h1, h2, h3, h4)) == Residue(Value(x0, x1, x2, x3, x4))
  {
    var u5: u32 := x4 + x3 / 0x1_0000_0000;
    var u0: u64 := u5 / 4 * 5 + x0 % 0x1_0000_0000;
    var u1: u64 := u0 / 0x1_0000_0000 + x1 % 0x1_0000_0000 + x0 / 0x1_0000_0000;
    var u2: u64 := u1 / 0x1_0000_0000 + x2 % 0x1_0000_0000 + x1 / 0x1_0000_0000;
    var u3: u64 := u2 / 0x1_0000_0000 + x3 % 0x1_0000_0000 + x2 / 0x1_0000_0000;
    var u4: u32 := u3 / 0x1_0000_0000 + u5 % 4;
    h0, h1, h2, h3, h4 := u0 % 0x1_0000_0000, u1 % 0x1_0000_0000, u2 % 0x1_0000_0000, u3 % 0x1_0000_0000, u4;
    assert Value(h0, h1, h2, h3, h4) == Value(x0, x1, x2, x3, x4) - u5 / 4 * P;
    ModEqual(Value(h0, h1, h2, h3, h4), Value(x0, x1, x2, x3, x4), -(u5 / 4));
  }

  lemma ResidueStep(x: int, c: int, r: int)
    ensures Residue((x + c) * r) == Residue((Residue(x) + c) * r)
  {
    ModMul(x % P + c, r, P);
    ModAdd(x, c, P);
    ModMul(x + c, r, P);
  }

  lemma StepResidue(x: int, w: int, r: int, z: int, end: int, b: seq<u8>, g: (int, seq<u8>) -> int)
    requires |b| == 16 && w == Le(b) + end * TOP && IsBlockStep(g, r, end)
    requires Residue(z) == Residue((x + w) * r)
    ensures Residue(z) == g(Residue(x), b)
  {
    ResidueStep(x, w, r);
    assert BlockAt(g, r, end, Residue(x), b);
  }

  /** h + c, without carry propagation. */
  method AddBlock(h: seq<u32>, block: seq<u8>, end: u32) returns (s0: u64, s1: u64, s2: u64, s3: u64, s4: u32)
    requires HashLimbs(h) && |block| == 16 && end <= 1
    ensures s0 <= 0x1_ffff_fffe && s1 <= 0x1_ffff_fffe && s2 <= 0x1_ffff_fffe && s3 <= 0x1_ffff_fffe && s4 <= 5
    ensures Value(s0, s1, s2, s3, s4) == Hash(h) + (Le(block) + end * TOP)
  {
    s0, s1 := h[0] + Load32(block, 0), h[1] + Load32(block, 4);
    s2, s3 := h[2] + Load32(block, 8), h[3] + Load32(block, 12);
    s4 := h[4] + end;
    Le16(block);
  }

  /** The body of the loop in poly_blocks: h becomes (h + c) * r modulo 2^130 - 5. */
  method Step(h: seq<u32>, r: seq<u32>, block: seq<u8>, end: u32, ghost g: (int, seq<u8>) -> int)
    returns (h': seq<u32>)
    requires HashLimbs(h) && ClampedLimbs(r) && |block| == 16 && end <= 1
    requires IsBlockStep(g, RValue(r), end)
    ensures HashLimbs(h')
    ensures Residue(Hash(h')) == g(Residue(Hash(h)), block)
  {
    var s0, s1, s2, s3, s4 := AddBlock(h, block, end);
    var x0, x1, x2, x3, x4 := Multiply(s0, s1, s2, s3, s4, r[0], r[1], r[2], r[3]);
    var h0, h1, h2, h3, h4 := Reduce(x0, x1, x2, x3, x4);
    h' := [h0, h1, h2, h3, h4];
    StepResidue(Hash(h), Le(block) + end * TOP, RValue(r), Hash(h'), end, block, g);
  }

  /** The last, short block: padding it by hand with a 1 byte and zeros is absorbing it. */
  lemma PaddedBlock(r: int, a: int, last: seq<u8>, padded: seq<u8>)
    requires 0 < |last| < 16
    requires padded == last + [1] + seq(15 - |last|, _ => 0)
    ensures Padded(r)(a, padded) == Poly(r)(a, last)
  {
    NumAppend(last + [1], seq(15 - |last|, _ => 0), 256);
    NumSnoc(last, 1, 256);
    NumZeros(15 - |last|, 256);
    assert Le(padded) == Block(last);
  }

  // ---------- The tag ----------

  /** Whether 2^130 - 5 must be subtracted, found by propagating the carry of h + 5. */
  method Excess(h: seq<u32>) returns (q: u64)
    requires HashLimbs(h)
    ensures q == if Hash(h) >= P then 1 else 0
  {
    var c: u64 := 5;
    ghost var low := 0;
    for i := 0 to 4
      invariant c <= 0x1_0000_0000
      invariant 5 + Limbs(h[..i]) == low + c * Pow(0x1_0000_0000, i) && 0 <= low < Pow(0x1_0000_0000, i)
    {
      ghost var p := Pow(0x1_0000_0000, i);
      assert h[..i + 1] == h[..i] + [h[i]];
      NumSnoc(h[..i], h[i], 0x1_0000_0000);
      var s: u64 := c + h[i];
      CarryStep(5 + Limbs(h[..i]), low, c, p, h[i], 0x1_0000_0000, s % 0x1_0000_0000, s / 0x1_0000_0000);
      LowBound(low, p, s % 0x1_0000_0000);
      low := low + p * (s % 0x1_0000_0000);
      c := s / 0x1_0000_0000;
    }
    Limbs4(h[..4]);
    PowLimbs();
    c := c + h[4];
    q := c / 4;
  }

  lemma LowBound(low: int, p: int, d: int)
    requires 0 <= low < p && 0 <= d < 0x1_0000_0000
    ensures 0 <= low + p * d < 0x1_0000_0000 * p
  {
    assert p * d <= p * 0xffff_ffff;
  }

  /** The low 128 bits of h + 5q + pad, written out byte by byte. */
  method AddPad(h: seq<u32>, pad: seq<u32>, q: u64) returns (mac: seq<u8>)
    requires HashLimbs(h) && |pad| == 4 && q <= 1
    ensures |mac| == 16 && Le(mac) == (Hash(h) + 5 * q + RValue(pad)) % TOP
  {
    mac := [];
    var c: u64 := q * 5;
    for i := 0 to 4
      invariant c <= 5 && |mac| == 4 * i
      invariant Le(mac) + c * Pow(0x1_0000_0000, i) == 5 * q + Limbs(h[..i]) + Limbs(pad[..i])
    {
      var d: u64 := h[i];
      d := d + pad[i];
      var s: u64 := c + d;
      PadStep(h, pad, q, i, c, s, mac);
      mac := mac + Store32(s % 0x1_0000_0000);
      c := s / 0x1_0000_0000;
    }
    TagBytes(h, pad, q, c, mac);
  }

  lemma PadStep(h: seq<u32>, pad: seq<u32>, q: int, i: nat, c: int, s: int, mac: seq<u8>)
    requires i < |h| && i < |pad| && |mac| == 4 * i && s >= 0 && s == c + (h[i] as int + pad[i] as int)
    requires Le(mac) + c * Pow(0x1_0000_0000, i) == 5 * q + Limbs(h[..i]) + Limbs(pad[..i])
    ensures Le(mac + Store32(s % 0x1_0000_0000)) + s / 0x1_0000_0000 * Pow(0x1_0000_0000, i + 1)
         == 5 * q + Limbs(h[..i + 1]) + Limbs(pad[..i + 1])
  {
    var e, c', p := s % 0x1_0000_0000, s / 0x1_0000_0000, Pow(0x1_0000_0000, i);
    assert h[..i + 1] == h[..i] + [h[i]] && pad[..i + 1] == pad[..i] + [pad[i]];
    NumSnoc(h[..i], h[i], 0x1_0000_0000);
    NumSnoc(pad[..i], pad[i], 0x1_0000_0000);
    var d := h[i] as int + pad[i] as int;
    CarryStep(5 * q + Limbs(h[..i]) + Limbs(pad[..i]), Le(mac), c, p, d, 0x1_0000_0000, e, c');
    AppendWord(mac, i, e);
    PadSum(Limbs(h[..i]), Limbs(pad[..i]), p, h[i], pad[i]);
  }

  lemma PadSum(h: int, pad: int, p: int, a: int, b: int)
    ensures h + pad + p * (a + b) == (h + p * a) + (pad + p * b)
  {
  }

  lemma TagBytes(h: seq<u32>, pad: seq<u32>, q: int, c: int, mac: seq<u8>)
    requires |h| == 5 && |pad| == 4 && |mac| == 16
    requires Le(mac) + c * Pow(0x1_0000_0000, 4) == 5 * q + Limbs(h[..4]) + Limbs(pad[..4])
    ensures Le(mac) == (Hash(h) + 5 * q + RValue(pad)) % TOP
  {
    Limbs4(h[..4]);
    Limbs4(pad);
    assert pad[..4] == pad;
    PowLimbs();
    Pow16();
    NumBound(mac, 256);
    ModUnique(Hash(h) + 5 * q + RValue(pad), h[4] + c, TOP, Le(mac));
  }

  lemma AppendWord(mac: seq<u8>, i: nat, w: u32)
    requires |mac| == 4 * i
    ensures Le(mac + Store32(w)) == Le(mac) + Pow(0x1_0000_0000, i) * w
  {
    NumAppend(mac, Store32(w), 256);
    BytePow(i);
    LeLoad32(Store32(w));
    assert Store32(w)[4..] == [];
  }

  lemma {:induction false} BytePow(i: nat)
    ensures Pow(256, 4 * i) == Pow(0x1_0000_0000, i)
  {
    if i != 0 {
      BytePow(i - 1);
      PowAdd(256, 4, 4 * (i - 1));
      assert Pow(256, 4) == 0x1_0000_0000;
    }
  }

  // ---------- The context ----------

  /** How the context is read as numbers: the multiplier, the accumulator step and the hash limbs. */
  datatype Reading = Reading(r: int, f: (int, seq<u8>) -> int, hash: seq<u32> -> int)

  ghost predicate HashAt(hash: seq<u32> -> int, h: seq<u32>) {
    |h| == 5 ==> hash(h) == Residue(Hash(h))
  }

  ghost predicate IsReading(m: Reading) {
    && IsStep(m.f, m.r)
    && forall h {:trigger HashAt(m.hash, h)} :: HashAt(m.hash, h)
  }

  lemma MakeReading(r: int) returns (m: Reading)
    ensures m.r == r && IsReading(m)
    ensures m.hash([0, 0, 0, 0, 0]) == 0
  {
    PolyIsStep(r);
    m := Reading(r, Poly(r), (h: seq<u32>) => if |h| == 5 then Residue(Hash(h)) else 0);
  }

  ghost function SomeReading(): (m: Reading)
    ensures IsReading(m)
  {
    PolyIsStep(0);
    Reading(0, Poly(0), (h: seq<u32>) => if |h| == 5 then Residue(Hash(h)) else 0)
  }

  type PolyReading = m: Reading | IsReading(m) ghost witness SomeReading()

  type ClampedKey = r: seq<u32> | ClampedLimbs(r) witness [0, 0, 0, 0]

  lemma Split<T>(s: seq<T>, m: seq<T>, k: nat)
    requires k <= |m|
    ensures (s + m[..k]) + m[k..] == s + m
  {
  }

  /** How far it is to the next block boundary. */
  method Gap(x: nat) returns (gap: nat)
    requires x < 16
    ensures gap == if x == 0 then 0 else 16 - x
  {
    gap := (16 - x) % 16;
  }

  /** The incremental context.  The ghost fields are the accumulator step the key gives and
      everything absorbed so far. */
  class Authenticator {
    const c: array<u8>
    var cIdx: nat
    const r: ClampedKey
    const pad: seq<u32>
    var h: seq<u32>
    ghost const step: PolyReading
    ghost var msg: seq<u8>

    ghost predicate Limited()
      reads this
    {
      c.Length == 16 && |pad| == 4 && HashLimbs(h) && step.r == RValue(r)
    }

    /** Of the message m, the last cIdx bytes are in the buffer and the whole blocks before them in the hash. */
    ghost predicate Holds(m: seq<u8>)
      reads this, c
    {
      && Limited() && cIdx <= 16 && cIdx <= |m|
      && forall z {:trigger Look(z)} :: Look(z) ==>
           (|m| - cIdx) % 16 == 0 && c[..cIdx] == m[|m| - cIdx..] && Absorbed(m[..|m| - cIdx])
    }

    /** The hash is that of the bytes done. */
    ghost predicate Absorbed(done: seq<u8>)
      reads this`h
    {
      forall z {:trigger LookPair(z)} :: LookPair(z) ==> step.hash(h) == Absorb(step.f, 0, done)
    }

    ghost predicate Valid()
      reads this, c
    {
      Holds(msg) && cIdx < 16
    }

    constructor (key: seq<u8>)
      requires |key| == 32
      ensures Valid() && fresh(c) && msg == []
      ensures step.r == Le(Clamped(key)) && RValue(pad) == Le(key[16..])
    {
      c := new u8[16];
      cIdx := 0;
      h := [0, 0, 0, 0, 0];
      var r' := LoadR(key);
      var pad' := LoadPad(key);
      r, pad := r', pad';
      ghost var m := MakeReading(RValue(r'));
      step, msg := m, [];
    }

    /** One block. */
    method OneBlock(b: seq<u8>, end: u32, ghost g: (int, seq<u8>) -> int)
      requires Limited() && end <= 1 && |b| == 16 && IsBlockStep(g, step.r, end)
      modifies this`h
      ensures Limited() && step.hash(h) == g(old(step.hash(h)), b)
    {
      assert HashAt(step.hash, h);
      h := Step(h, r, b, end, g);
      assert HashAt(step.hash, h);
    }

    method Blocks(input: seq<u8>, n: nat, end: u32, ghost g: (int, seq<u8>) -> int)
      requires Limited() && end <= 1 && 16 * n <= |input|
      requires IsBlockStep(g, step.r, end)
      modifies this`h
      ensures Limited()
      ensures step.hash(h) == Absorb(g, old(step.hash(h)), input[..16 * n])
    {
      ghost var a := step.hash(h);
      for i := 0 to n
        invariant Limited()
        invariant step.hash(h) == Absorb(g, a, input[..16 * i])
      {
        AbsorbNext(g, a, input, i);
        OneBlock(input[16 * i..16 * i + 16], end, g);
      }
    }

    /** Whole blocks after what has been absorbed. */
    method Append(input: seq<u8>, n: nat, ghost done: seq<u8>)
      requires Limited() && 16 * n <= |input| && Absorbed(done) && |done| % 16 == 0
      modifies this`h
      ensures Limited() && Absorbed(done + input[..16 * n])
    {
      assert LookPair(0);
      StepIsBlockStep(step.f, step.r);
      Blocks(input, n, 1, step.f);
      AbsorbAppend(step.f, 0, done, input[..16 * n]);
    }

    /** Copies bytes into the buffer, which has room for them. */
    method Copy(bytes: seq<u8>, ghost m: seq<u8>)
      requires Holds(m) && cIdx + |bytes| <= 16
      modifies this`cIdx, c
      ensures Holds(m + bytes) && cIdx == old(cIdx) + |bytes|
    {
      assert Look(0);
      ghost var start := cIdx;
      for i := 0 to |bytes|
        invariant c.Length == 16 && cIdx == start + i
        invariant c[..cIdx] == m[|m| - start..] + bytes[..i]
      {
        c[cIdx] := bytes[i];
        cIdx := cIdx + 1;
      }
      assert (m + bytes)[..|m| - start] == m[..|m| - start];
      assert (m + bytes)[|m| - start..] == m[|m| - start..] + bytes;
    }

    /** Compresses the full buffer. */
    method Flush(ghost m: seq<u8>)
      requires Holds(m) && cIdx == 16
      modifies this`h, this`cIdx
      ensures Holds(m) && cIdx == 0
    {
      assert Look(0);
      ghost var done := m[..|m| - 16];
      Append(c[..], 1, done);
      cIdx := 0;
      assert c[..][..16] == c[..16];
      assert done + c[..16] == m == m[..|m|];
    }

    /** Compresses whole blocks of the message taken from outside the buffer. */
    method Direct(input: seq<u8>, n: nat, ghost m: seq<u8>)
      requires Holds(m) && 16 * n <= |input| && (n == 0 || cIdx == 0)
      modifies this`h
      ensures Holds(m + input[..16 * n])
    {
      assert Look(0);
      if n == 0 {
        assert m + input[..16 * n] == m;
        return;
      }
      assert m[..|m|] == m;
      Append(input, n, m);
      ghost var m' := m + input[..16 * n];
      assert m'[..|m'|] == m';
    }

    /** Brings the buffer to a block boundary, as far as the message reaches. */
    method Align(message: seq<u8>) returns (aligned: nat)
      requires Valid()
      modifies this`h, this`cIdx, c
      ensures aligned <= |message| && (aligned == |message| || cIdx == 0) && cIdx < 16
      ensures Holds(msg + message[..aligned])
    {
      var gap := Gap(cIdx);
      aligned := if gap <= |message| then gap else |message|;
      Copy(message[..aligned], msg);
      if cIdx == 16 {
        Flush(msg + message[..aligned]);
      }
    }

    /** Absorbs the part of a message that starts on a block boundary. */
    method Rest(rest: seq<u8>, ghost m: seq<u8>)
      requires Holds(m) && cIdx < 16 && (rest == [] || cIdx == 0)
      modifies this`h, this`cIdx, c
      ensures Holds(m + rest) && cIdx < 16
    {
      var full := |rest| / 16;
      Direct(rest, full, m);
      Split(m, rest, 16 * full);
      Copy(rest[16 * full..], m + rest[..16 * full]);
    }

    method Update(message: seq<u8>)
      requires Valid()
      modifies this`h, this`cIdx, this`msg, c
      ensures Valid()
      ensures msg == old(msg) + message
    {
      if |message| == 0 {
        assert msg == msg + message;
        return;
      }
      AlignRest(message);
      msg := msg + message;
    }

    method AlignRest(message: seq<u8>)
      requires Valid()
      modifies this`h, this`cIdx, c
      ensures Holds(msg + message) && cIdx < 16
    {
      var aligned := Align(message);
      Split(msg, message, aligned);
      Rest(message[aligned..], msg + message[..aligned]);
    }

    /** Zeroes the rest of the buffer, marks the end of the message and compresses. */
    method Finish()
      requires Valid()
      modifies this`h, c
      ensures Limited() && Absorbed(msg)
    {
      assert Look(0);
      if cIdx == 0 {
        assert msg[..|msg|] == msg;
        return;
      }
      ghost var last, done := msg[|msg| - cIdx..], msg[..|msg| - cIdx];
      PadBuffer(last);
      CloseBlock(done, last);
      assert done + last == msg;
    }

    method PadBuffer(ghost last: seq<u8>)
      requires c.Length == 16 && 0 < cIdx < 16 && c[..cIdx] == last
      modifies c
      ensures c[..] == last + [1] + seq(15 - cIdx, _ => 0)
    {
      for i := cIdx to 16
        invariant c[..i] == last + seq(i - cIdx, _ => 0)
      {
        c[i] := 0;
      }
      c[cIdx] := 1;
    }

    /** The padded last block goes in without the end bit, which its padding already has. */
    method CloseBlock(ghost done: seq<u8>, ghost last: seq<u8>)
      requires Limited() && Absorbed(done) && |done| % 16 == 0 && 0 < |last| < 16
               && c[..] == last + [1] + seq(15 - |last|, _ => 0)
      modifies this`h
      ensures Limited() && Absorbed(done + last)
    {
      assert LookPair(0);
      ghost var g, x := Padded(RValue(r)), step.hash(h);
      PaddedIsBlockStep(RValue(r));
      OneBlock(c[..], 0, g);
      PaddedBlock(RValue(r), x, last, c[..]);
      assert StepAt(step.f, RValue(r), x, last);
      AbsorbAppend(step.f, 0, done, last);
      AbsorbOne(step.f, x, last);
    }

    method Final() returns (mac: seq<u8>)
      requires Valid()
      modifies this`h, c
      ensures |mac| == 16
      ensures Le(mac) == (Absorb(step.f, 0, msg) + RValue(pad)) % TOP
    {
      Finish();
      assert LookPair(0) && HashAt(step.hash, h);
      mac := Emit(h, pad, Hash(h), RValue(pad));
    }
  }

  /** The reduced accumulator plus the pad, modulo 2^128. */
  method Emit(h: seq<u32>, pad: seq<u32>, ghost x: int, ghost p: int) returns (mac: seq<u8>)
    requires HashLimbs(h) && |pad| == 4 && x == Hash(h) && p == RValue(pad)
    ensures |mac| == 16 && Le(mac) == (Residue(x) + p) % TOP
  {
    var q := Excess(h);
    mac := AddPad(h, pad, q);
    HashBound(h);
    TagIs(x, q, p, Le(mac));
  }

  lemma HashBound(h: seq<u32>)
    requires HashLimbs(h)
    ensures 0 <= Hash(h) < 5 * TOP
  {
  }

  lemma TagIs(x: int, q: int, p: int, tag: int)
    requires 0 <= x < 5 * TOP && q == (if x >= P then 1 else 0) && tag == (x + 5 * q + p) % TOP
    ensures tag == (Residue(x) + p) % TOP
  {
    TagResidue(x, q, p);
  }

  /** Subtracting P once leaves the residue; modulo 2^128 that is adding 5. */
  lemma TagResidue(x: int, q: int, pad: int)
    requires 0 <= x < 5 * TOP && q == if x >= P then 1 else 0
    ensures (x + 5 * q + pad) % TOP == (Residue(x) + pad) % TOP
  {
    ModUnique(x, q, P, x - q * P);
    ModShift(Residue(x) + pad, 4 * q, TOP);
  }

  /** The one-shot interface computes the tag of RFC 8439. */
  method Mac(message: seq<u8>, key: seq<u8>) returns (mac: seq<u8>)
    requires |key| == 32
    ensures |mac| == 16 && Le(mac) == Tag(key, message)
  {
    var ctx := new Authenticator(key);
    ctx.Update(message);
    assert ctx.msg == message;
    mac := ctx.Final();
    TagMatches(key, message, ctx.step.f, ctx.step.r, RValue(ctx.pad), Le(mac));
  }

  lemma TagMatches(key: seq<u8>, msg: seq<u8>, f: (int, seq<u8>) -> int, r: int, pad: int, tag: int)
    requires |key| == 32 && IsStep(f, r) && r == Le(Clamped(key)) && pad == Le(key[16..])
    requires tag == (Absorb(f, 0, msg) + pad) % TOP
    ensures tag == Tag(key, msg)
  {
    AbsorbAgrees(f, r, 0, msg);
  }
}
