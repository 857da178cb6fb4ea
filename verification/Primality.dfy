/** Prime numbers: Euclid's lemma, Fermat's little theorem, Euler's criterion, and Pocklington's criterion, by which the
    moduli of the elliptic curve are prime. */
module Primality {
  import opened Words
  import opened Graphs

  ghost predicate Prime(n: int) {
    n > 1 && forall d :: 1 < d < n ==> n % d != 0
  }

  // ---------- Euclid's lemma ----------

  /** A prime that divides a product divides a factor. */
  lemma {:induction false} Euclid(p: int, a: int, b: int)
    requires Prime(p) && 0 < a < p && (a * b) % p == 0
    ensures b % p == 0
    decreases a
  {
    if a > 1 {
      var k, r := p / a, p % a;
      assert p == k * a + r;
      RestVanishes(p, a, b, k, r);
      Euclid(p, r, b);
    }
  }

  lemma RestVanishes(p: int, a: int, b: int, k: int, r: int)
    requires p > 0 && p == k * a + r && (a * b) % p == 0
    ensures (r * b) % p == 0
  {
    var j := (a * b) / p;
    assert a * b == j * p;
    assert r * b == p * b - k * (a * b);
    assert r * b == 0 + (b - k * j) * p;
    ModShift(0, b - k * j, p);
  }

  lemma EuclidMod(p: int, a: int, b: int)
    requires Prime(p) && (a * b) % p == 0
    ensures a % p == 0 || b % p == 0
  {
    if a % p != 0 {
      ModMul(a, b, p);
      Euclid(p, a % p, b);
    }
  }

  // ---------- Fermat's little theorem ----------

  function Product(s: seq<int>): int {
    if s == [] then 1 else Product(s[..|s| - 1]) * s[|s| - 1]
  }

  function Factorial(n: nat): int {
    if n == 0 then 1 else Factorial(n - 1) * n
  }

  /** The product of 1 to n, in any order. */
  lemma {:induction false} ProductOfAll(s: seq<int>, n: nat)
    requires |s| == n && forall i :: 0 <= i < n ==> 1 <= s[i] <= n
    requires forall i, j :: 0 <= i < j < n ==> s[i] != s[j]
    ensures Product(s) == Factorial(n)
    decreases n
  {
    if n > 0 {
      var shifted := seq(n, i requires 0 <= i < n => s[i] - 1);
      var k := Onto(shifted, n, n - 1);
      var t := s[..k] + s[k + 1..];
      assert forall i :: 0 <= i < n - 1 ==> t[i] == if i < k then s[i] else s[i + 1];
      ProductOfAll(t, n - 1);
      ProductWithout(s, k);
    }
  }

  /** One factor can be taken out. */
  lemma {:induction false} ProductWithout(s: seq<int>, k: nat)
    requires k < |s|
    ensures Product(s) == Product(s[..k] + s[k + 1..]) * s[k]
    decreases |s|
  {
    var n, t := |s| - 1, s[..k] + s[k + 1..];
    if k < n {
      var u, v := s[..n], t[..n - 1];
      assert v == u[..k] + u[k + 1..];
      ProductWithout(u, k);
      Swap(Product(v), s[k], s[n]);
    } else {
      assert t == s[..n];
    }
  }

  lemma Swap(x: int, y: int, z: int)
    ensures (x * y) * z == (x * z) * y
  {
  }

  lemma ProductSnoc(s: seq<int>, x: int)
    ensures Product(s + [x]) == Product(s) * x
  {
    assert (s + [x])[..|s|] == s;
  }

  /** The multiples of x by 1 to n, modulo p. */
  ghost predicate IsMultiples(s: seq<int>, x: int, p: int) {
    p > 0 && forall i {:trigger MultipleAt(s, x, p, i)} :: 0 <= i < |s| ==> MultipleAt(s, x, p, i)
  }

  ghost predicate MultipleAt(s: seq<int>, x: int, p: int, i: int)
    requires p > 0
  {
    0 <= i < |s| && s[i] == (x * (i + 1)) % p
  }

  lemma {:induction false} ProductOfMultiples(x: int, n: nat, p: int) returns (s: seq<int>)
    requires p > 0
    ensures |s| == n && IsMultiples(s, x, p) && Product(s) % p == (Pow(x, n) * Factorial(n)) % p
  {
    if n == 0 {
      s := [];
    } else {
      var t := ProductOfMultiples(x, n - 1, p);
      s := t + [(x * n) % p];
      forall i | 0 <= i < n ensures MultipleAt(s, x, p, i) {
        assert i < n - 1 ==> MultipleAt(t, x, p, i);
      }
      ProductSnoc(t, (x * n) % p);
      OneMore(Product(t), x, Pow(x, n - 1), Factorial(n - 1), n, p);
    }
  }

  lemma OneMore(u: int, x: int, y: int, f: int, n: int, p: int)
    requires p > 0 && u % p == (y * f) % p
    ensures (u * ((x * n) % p)) % p == ((x * y) * (f * n)) % p
  {
    var w := x * n;
    Commute(u, w % p);
    Commute(u, w);
    ModMul(w, u, p);
    ModMul(u, w, p);
    ModMul(y * f, w, p);
    Regroup(x, y, f, n);
  }

  lemma Regroup(x: int, y: int, f: int, n: int)
    ensures (y * f) * (x * n) == (x * y) * (f * n)
  {
    assert (y * f) * (x * n) == y * (f * (x * n));
    assert f * (x * n) == x * (f * n);
    assert (x * y) * (f * n) == y * (x * (f * n));
  }

  /** A prime does not divide the factorial of a smaller number. */
  lemma {:induction false} FactorialNotZero(p: int, n: nat)
    requires Prime(p) && n < p
    ensures Factorial(n) % p != 0
  {
    if n > 0 {
      FactorialNotZero(p, n - 1);
      ModUnique(n, 0, p, n);
      if Factorial(n) % p == 0 { EuclidMod(p, Factorial(n - 1), n); }
    } else {
      ModUnique(1, 0, p, 1);
    }
  }

  /** Different multiples are different, and none is zero. */
  lemma MultiplesDiffer(p: int, x: int, i: int, j: int)
    requires Prime(p) && x % p != 0 && 0 <= i < j < p
    ensures (x * i) % p != (x * j) % p
  {
    if (x * i) % p == (x * j) % p {
      DifferenceVanishes(x * j, x * i, p);
      assert x * j - x * i == x * (j - i);
      EuclidMod(p, x, j - i);
      ModUnique(j - i, 0, p, j - i);
    }
  }

  lemma DifferenceVanishes(a: int, b: int, p: int)
    requires p > 0 && a % p == b % p
    ensures (a - b) % p == 0
  {
    var k, l := a / p, b / p;
    assert a == k * p + a % p && b == l * p + b % p;
    assert (k - l) * p == k * p - l * p;
    ModUnique(a - b, k - l, p, 0);
  }

  lemma MultipleRange(p: int, x: int, s: seq<int>, i: nat)
    requires Prime(p) && x % p != 0 && IsMultiples(s, x, p) && i < |s| < p
    ensures 1 <= s[i] < p
  {
    assert MultipleAt(s, x, p, i);
    MultiplesDiffer(p, x, 0, i + 1);
    ModUnique(0, 0, p, 0);
  }

  lemma MultiplePair(p: int, x: int, s: seq<int>, i: nat, j: nat)
    requires Prime(p) && x % p != 0 && IsMultiples(s, x, p) && i < j < |s| < p
    ensures s[i] != s[j]
  {
    assert MultipleAt(s, x, p, i) && MultipleAt(s, x, p, j);
    MultiplesDiffer(p, x, i + 1, j + 1);
  }

  /** The multiples of x are the numbers below p in some order. */
  lemma MultiplesAreAll(p: int, x: int, s: seq<int>, n: nat)
    requires Prime(p) && x % p != 0 && IsMultiples(s, x, p) && |s| == n == p - 1
    ensures Product(s) == Factorial(n)
  {
    forall i | 0 <= i < n ensures 1 <= s[i] <= n { MultipleRange(p, x, s, i); }
    forall i, j | 0 <= i < j < n ensures s[i] != s[j] { MultiplePair(p, x, s, i, j); }
    ProductOfAll(s, n);
  }

  lemma Fermat(p: int, x: int)
    requires Prime(p) && x % p != 0
    ensures Pow(x, p - 1) % p == 1
  {
    var n: nat := p - 1;
    var s := ProductOfMultiples(x, n, p);
    MultiplesAreAll(p, x, s, n);
    FactorialNotZero(p, n);
    Cancel(p, Pow(x, n), Factorial(n));
  }

  /** What multiplies f to f is 1, if f is not zero. */
  lemma Cancel(p: int, y: int, f: int)
    requires Prime(p) && f % p != 0 && (y * f) % p == f % p
    ensures y % p == 1
  {
    DifferenceVanishes(y * f, f, p);
    assert y * f - f == (y - 1) * f;
    EuclidMod(p, y - 1, f);
    assert y - 1 == (y - 1) / p * p;
    ModShift(1, (y - 1) / p, p);
    ModUnique(1, 0, p, 1);
  }

  /** Euler's criterion: the power (p - 1) / 2 of anything but zero is 1 or -1. */
  lemma Euler(p: int, h: nat, x: int)
    requires Prime(p) && p == 2 * h + 1 && x % p != 0
    ensures Pow(x, h) % p == 1 || Pow(x, h) % p == p - 1
  {
    Fermat(p, x);
    PowAdd(x, h, h);
    RootsOfOne(p, Pow(x, h));
  }

  lemma RootsOfOne(p: int, y: int)
    requires Prime(p) && (y * y) % p == 1
    ensures y % p == 1 || y % p == p - 1
  {
    ModUnique(1, 0, p, 1);
    DifferenceVanishes(y * y, 1, p);
    assert y * y - 1 == (y - 1) * (y + 1);
    EuclidMod(p, y - 1, y + 1);
    if (y - 1) % p == 0 { Residue(y, 1, p); } else { Above(y, p); }
  }

  lemma Above(y: int, p: int)
    requires p > 1 && (y + 1) % p == 0
    ensures y % p == p - 1
  {
    ModShift(y - (p - 1), 1, p);
    Residue(y, p - 1, p);
  }

  lemma Residue(n: int, y: int, m: int)
    requires 0 <= y < m && (n - y) % m == 0
    ensures n % m == y
  {
    ModUnique(n, (n - y) / m, m, y);
  }

  // ---------- Powers modulo m ----------

  lemma {:induction false} PowMul(b: int, m: nat, n: nat)
    ensures Pow(b, m * n) == Pow(Pow(b, m), n)
    decreases n
  {
    if n == 0 {
      assert m * n == 0;
    } else {
      PowMul(b, m, n - 1);
      PowAdd(b, m, m * (n - 1));
      assert m * n == m + m * (n - 1);
    }
  }

  lemma {:induction false} PowOfOne(b: int, n: nat, m: int)
    requires m > 1 && b % m == 1
    ensures Pow(b, n) % m == 1
  {
    ModUnique(1, 0, m, 1);
    if n > 0 {
      PowOfOne(b, n - 1, m);
      ModProduct(b, Pow(b, n - 1), m);
    }
  }

  lemma {:induction false} PowOfZero(b: int, n: nat, m: int)
    requires m > 1 && b % m == 0 && n > 0
    ensures Pow(b, n) % m == 0
  {
    ModProduct(b, Pow(b, n - 1), m);
  }

  /** A residue modulo n decides that modulo a divisor of n. */
  lemma ModDivisor(x: int, n: int, d: int)
    requires n > 0 && d > 0 && n % d == 0
    ensures (x % n) % d == x % d
  {
    var q := x / n;
    assert x == x % n + q * n && n == n / d * d;
    assert x == x % n + (q * (n / d)) * d;
    ModShift(x % n, q * (n / d), d);
  }

  // ---------- Pocklington's criterion ----------

  /** The least divisor of n from d on is prime. */
  lemma {:induction false} LeastDivisor(n: int, d: int) returns (p: int)
    requires 1 < d <= n && forall e :: 1 < e < d ==> n % e != 0
    ensures Prime(p) && n % p == 0 && d <= p <= n
    decreases n - d
  {
    if n % d == 0 {
      p := d;
      forall e | 1 < e < p ensures p % e != 0 {
        if p % e == 0 { ModDivisor(n, p, e); ModUnique(0, 0, e, 0); }
      }
    } else {
      ModUnique(n, 1, n, 0);
      p := LeastDivisor(n, d + 1);
    }
  }

  /** If the powers t and q of b are 1, so is b, as t u is 1 modulo q. */
  lemma PowersMeet(b: int, t: nat, u: nat, q: nat, w: nat, p: int)
    requires p > 1 && Pow(b, t) % p == 1 && Pow(b, q) % p == 1 && t * u == 1 + q * w
    ensures b % p == 1
  {
    PowMul(b, t, u);
    PowOfOne(Pow(b, t), u, p);
    PowMul(b, q, w);
    PowOfOne(Pow(b, q), w, p);
    var y := Pow(b, q * w);
    assert Pow(b, 1 + q * w) == b * y;
    ModProduct(b, y, p);
    ModMul(b, 1, p);
  }

  /** If b is not 1 modulo a prime p, but its power by a prime q is, then q divides p - 1. */
  lemma OrderDivides(p: int, q: int, b: int)
    requires Prime(p) && Prime(q) && Pow(b, q) % p == 1 && b % p != 1
    ensures (p - 1) % q == 0
  {
    var t: nat := p - 1;
    if b % p == 0 { PowOfZero(b, q, p); }
    Fermat(p, b);
    if t % q != 0 {
      Fermat(q, t);
      var z := Pow(t, q - 1);
      PowPos(t, q - 2);
      PowPos(t, q - 1);
      Quotient(z, q);
      PowersMeet(b, t, Pow(t, q - 2), q, z / q, p);
    }
  }

  lemma Quotient(z: int, q: int)
    requires z >= 0 && q > 0 && z % q == 1
    ensures z == 1 + q * (z / q) && z / q >= 0
  {
  }

  /** n is prime, if n - 1 is r times a prime q, and a is a witness that every prime divisor of n is 1 modulo q. That
      leaves no room for two factors: r would be k + l + k l q. */
  lemma Pocklington(n: int, q: int, r: nat, a: int, inverse: int)
    requires Prime(q) && n > 1 && n - 1 == r * q && r / q + 1 < r % q
    requires Pow(a, n - 1) % n == 1 && ((Pow(a, r) % n - 1) * inverse) % n == 1
    ensures Prime(n)
  {
    var p := LeastDivisor(n, 2);
    if p < n {
      OneModQ(n, q, r, a, inverse, p);
      NotSplit(n, q, r, p, n / p);
    }
  }

  lemma NotSplit(n: int, q: int, r: nat, p: int, c: int)
    requires q > 1 && n - 1 == r * q && n == p * c && 1 < p < n && (p - 1) % q == 0
    ensures r % q <= r / q + 1
  {
    var k, l := (p - 1) / q, (c - 1) / q;
    Cofactor(n, p, c);
    assert p == 1 + k * q && k >= 1;
    OtherFactor(n, q, r, k, c);
    assert c == 1 + l * q && l >= 1;
    NoTwoFactors(q, r, k, l);
  }

  lemma OneModQ(n: int, q: int, r: nat, a: int, inverse: int, p: int)
    requires Prime(q) && n > 1 && n - 1 == r * q && Prime(p) && n % p == 0
    requires Pow(a, n - 1) % n == 1 && ((Pow(a, r) % n - 1) * inverse) % n == 1
    ensures (p - 1) % q == 0
  {
    var b := Pow(a, r);
    PowMul(a, r, q);
    ModDivisor(Pow(b, q), n, p);
    ModUnique(1, 0, p, 1);
    ModDivisor(b, n, p);
    ModDivisor((b % n - 1) * inverse, n, p);
    if b % p == 1 {
      DifferenceVanishes(b % n, 1, p);
      ModMul(b % n - 1, inverse, p);
      ModUnique(0, 0, p, 0);
    }
    OrderDivides(p, q, b);
  }

  lemma OtherFactor(n: int, q: int, r: int, k: int, c: int)
    requires q > 1 && n - 1 == r * q && n == (1 + k * q) * c
    ensures (c - 1) % q == 0
  {
    var kc := k * c;
    Spread(k, q, c, kc);
    assert (r - kc) * q == r * q - kc * q;
    ModUnique(c - 1, r - kc, q, 0);
  }

  lemma Spread(k: int, q: int, c: int, kc: int)
    requires kc == k * c
    ensures (1 + k * q) * c == c + kc * q
  {
    Assoc(k, q, c);
    Assoc(k, c, q);
    Commute(q, c);
    assert (1 + k * q) * c == c + (k * q) * c;
  }

  lemma NoTwoFactors(q: int, r: int, k: int, l: int)
    requires q > 1 && k >= 1 && l >= 1 && r * q + 1 == (1 + k * q) * (1 + l * q)
    ensures r % q <= r / q + 1
  {
    var kl := k * l;
    Expanded(q, r, k, l, kl);
    SumBound(k, l, kl);
    if k + l < q {
      ModUnique(r, kl, q, k + l);
    } else {
      AtLeast(r, kl, q);
    }
  }

  lemma Expanded(q: int, r: int, k: int, l: int, kl: int)
    requires q > 1 && kl == k * l && r * q + 1 == (1 + k * q) * (1 + l * q)
    ensures r == k + l + kl * q
  {
    assert (1 + k * q) * (1 + l * q) == 1 + (k + l + kl * q) * q by {
      assert (k * q) * (l * q) == (kl * q) * q;
    }
    Divided(r, k + l + kl * q, q);
  }

  lemma Divided(x: int, y: int, q: int)
    requires q > 0 && x * q == y * q
    ensures x == y
  {
  }

  lemma SumBound(k: int, l: int, kl: int)
    requires k >= 1 && l >= 1 && kl == k * l
    ensures k + l <= kl + 1
  {
    assert (k - 1) * (l - 1) >= 0;
  }

  lemma AtLeast(r: int, u: int, q: int)
    requires q > 0 && r >= u * q
    ensures r / q >= u
  {
    var k := u - r / q;
    assert r == r / q * q + r % q && k * q == u * q - r / q * q;
    MulAtLeast(k, q);
  }

  // ---------- Certificates ----------

  ghost predicate PowAt(pow: nat -> int, m: int, n: nat) {
    m > 1 && pow(n) == Pow(2, n) % m
  }

  /** The powers of 2 modulo m, carried as a function, which proofs unfold only where they ask for it. */
  ghost predicate IsPowers(pow: nat -> int, m: int) {
    m > 1 && forall n {:trigger PowAt(pow, m, n)} :: PowAt(pow, m, n)
  }

  ghost function PowersOf(m: int): (pow: nat -> int)
    requires m > 1
    ensures IsPowers(pow, m)
  {
    var pow := (n: nat) => Pow(2, n) % m;
    assert forall n {:trigger PowAt(pow, m, n)} :: PowAt(pow, m, n);
    pow
  }

  /** Opens the two facts below, one value or exponent at a time. */
  predicate Opened(z: int, y: int) { true }

  /** x is the power e of 2 modulo m. */
  ghost predicate Known(pow: nat -> int, m: int, e: nat, x: int) {
    forall z {:trigger Opened(z, e)} :: Opened(z, e) ==> IsPowers(pow, m) && m > 8 && pow(e) == x
  }

  /** y is the fourth power of x times c modulo m. */
  ghost predicate Reduces(x: int, c: int, m: int, y: int) {
    forall z {:trigger Opened(z, y)} :: Opened(z, y) ==> m > 0 && 0 <= y < m && (x * x * (x * x) * c - y) % m == 0
  }

  predicate Digit(f: nat, c: int) {
    (f == 0 && c == 1) || (f == 1 && c == 2) || (f == 2 && c == 4) || (f == 3 && c == 8)
  }

  /** One digit of an exponent in base 4: from the power e of 2 to the power 4 e + f. */
  lemma Step(pow: nat -> int, m: int, e: nat, x: int, f: nat, c: int, y: int) returns (e': nat, x': int)
    requires Known(pow, m, e, x) && Digit(f, c) && Reduces(x, c, m, y)
    ensures e' == 4 * e + f && x' == y && Known(pow, m, e', x')
  {
    assert Opened(0, e) && Opened(0, y);
    e', x' := 4 * e + f, y;
    Begin(pow, m, f, c);
    assert Opened(0, f);
    PowersStep(pow, m, e, f);
    Residue(x * x * (x * x) * c, y, m);
  }

  lemma Begin(pow: nat -> int, m: int, e: nat, x: int)
    requires IsPowers(pow, m) && m > 8 && Digit(e, x)
    ensures Known(pow, m, e, x)
  {
    assert PowAt(pow, m, e) && Pow(2, e) == x;
    ModUnique(x, 0, m, x);
  }

  lemma PowersStep(pow: nat -> int, m: int, e: nat, f: nat)
    requires IsPowers(pow, m)
    ensures var x := pow(e); pow(4 * e + f) == x * x * (x * x) * pow(f) % m
  {
    PowersAdd(pow, m, e, e);
    PowersAdd(pow, m, 2 * e, 2 * e);
    PowersAdd(pow, m, 4 * e, f);
    StepMods(pow(e), pow(f), m);
  }

  lemma PowersAdd(pow: nat -> int, m: int, e: nat, f: nat)
    requires IsPowers(pow, m)
    ensures pow(e + f) == (pow(e) * pow(f)) % m
  {
    assert PowAt(pow, m, e) && PowAt(pow, m, f) && PowAt(pow, m, e + f);
    PowAdd(2, e, f);
    ModProduct(Pow(2, e), Pow(2, f), m);
  }

  lemma StepMods(x: int, c: int, m: int)
    requires m > 1
    ensures ((((x * x) % m) * ((x * x) % m)) % m * c) % m == x * x * (x * x) * c % m
  {
    ModProduct(x * x, x * x, m);
    ModMul(x * x * (x * x), c, m);
  }

  /** What is to be checked of the numbers in a certificate. */
  predicate Checks(n: int, q: int, r: nat, b: int, inverse: int) {
    n > 1 && q > 0 && n - 1 == r * q && r / q + 1 < r % q && ((b - 1) * inverse) % n == 1
  }

  /** Pocklington's criterion with witness 2. */
  lemma Certified(n: int, q: int, r: nat, pow: nat -> int, b: int, inverse: int)
    requires Prime(q) && Checks(n, q, r, b, inverse) && Known(pow, n, r, b) && Known(pow, n, n - 1, 1)
    ensures Prime(n)
  {
    assert Opened(0, r) && Opened(0, n - 1);
    assert PowAt(pow, n, r) && PowAt(pow, n, n - 1);
    Pocklington(n, q, r, 2, inverse);
  }

  /** Small numbers by trial. */
  predicate NoDivisorBelow(n: int, d: int)
    requires d >= 2
  {
    d == 2 || (n % (d - 1) != 0 && NoDivisorBelow(n, d - 1))
  }

  lemma {:induction false} NoDivisor(n: int, d: int, e: int)
    requires 2 <= d && NoDivisorBelow(n, d) && 1 < e < d
    ensures n % e != 0
    decreases d
  {
    if e < d - 1 { NoDivisor(n, d - 1, e); }
  }

  lemma Trial(n: int, d: int)
    requires 2 <= d <= n < d * d && NoDivisorBelow(n, d)
    ensures Prime(n)
  {
    var p := LeastDivisor(n, 2);
    if p < n {
      var c := n / p;
      assert n == p * c;
      if p < d { NoDivisor(n, d, p); }
      if c < d { Cofactor(n, p, c); NoDivisor(n, d, c); }
      MulBound(d, p, d, c);
    }
  }

  lemma Cofactor(n: int, p: int, c: int)
    requires n == p * c && 1 < p < n
    ensures 1 < c && n % c == 0
  {
    if c <= 1 { MulSign(p, c); }
    ModShift(0, p, c);
    ModUnique(0, 0, c, 0);
  }

  lemma MulSign(p: int, c: int)
    requires p > 1 && c <= 1
    ensures p * c <= p
  {
  }
}
