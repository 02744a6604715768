/** Elementary number theory behind the signer: congruences, powers, Fermat's little theorem,
    Euler's criterion for primes that are 3 modulo 4, and the quadratic character of 2. */
module NumberTheory {

  // ---------- congruences ----------

  /** d is reached from zero in steps of m. */
  predicate Multiple(d: int, m: int)
    requires 0 < m
    decreases if d < 0 then -d else d
  {
    if d >= m then Multiple(d - m, m) else if d <= -m then Multiple(d + m, m) else d == 0
  }

  predicate Cong(a: int, b: int, m: int)
    requires 0 < m
  {
    Multiple(a - b, m)
  }

  lemma {:induction false} MultipleTimes(k: int, m: int)
    requires 0 < m
    ensures Multiple(k * m, m)
    decreases if k < 0 then -k else k
  {
    MultipleGap(k, m);
    if k > 0 {
      assert k * m - m == (k - 1) * m;
      MultipleTimes(k - 1, m);
    } else if k < 0 {
      assert k * m + m == (k + 1) * m;
      MultipleTimes(k + 1, m);
    }
  }

  lemma {:induction false} MultipleWitness(d: int, m: int) returns (k: int)
    requires 0 < m && Multiple(d, m)
    ensures d == k * m
    decreases if d < 0 then -d else d
  {
    if d >= m {
      k := MultipleWitness(d - m, m);
      assert (k + 1) * m == k * m + m;
      k := k + 1;
    } else if d <= -m {
      k := MultipleWitness(d + m, m);
      assert (k - 1) * m == k * m - m;
      k := k - 1;
    } else {
      k := 0;
    }
  }

  lemma CongIntro(a: int, b: int, m: int, k: int)
    requires 0 < m && a - b == k * m
    ensures Cong(a, b, m)
  {
    MultipleTimes(k, m);
  }

  lemma CongWitness(a: int, b: int, m: int) returns (k: int)
    requires 0 < m && Cong(a, b, m)
    ensures a - b == k * m
  {
    k := MultipleWitness(a - b, m);
  }

  /** No multiple of m other than zero lies strictly between -m and m. */
  lemma MultipleGap(k: int, m: int)
    requires 0 < m
    ensures k >= 1 ==> k * m >= m
    ensures k <= -1 ==> k * m <= -m
  {
    if k >= 1 {
      assert (k - 1) * m >= 0;
    } else if k <= -1 {
      assert (-k - 1) * m >= 0;
    }
  }

  lemma CongSym(a: int, b: int, m: int)
    requires 0 < m && Cong(a, b, m)
    ensures Cong(b, a, m)
  {
    var k := CongWitness(a, b, m);
    CongIntro(b, a, m, -k);
  }

  lemma CongTrans(a: int, b: int, c: int, m: int)
    requires 0 < m && Cong(a, b, m) && Cong(b, c, m)
    ensures Cong(a, c, m)
  {
    var j := CongWitness(a, b, m);
    var k := CongWitness(b, c, m);
    assert (j + k) * m == j * m + k * m;
    CongIntro(a, c, m, j + k);
  }

  lemma CongMul(a: int, b: int, c: int, d: int, m: int)
    requires 0 < m && Cong(a, b, m) && Cong(c, d, m)
    ensures Cong(a * c, b * d, m)
  {
    var j := CongWitness(a, b, m);
    var k := CongWitness(c, d, m);
    var w := a * k + j * d;
    calc {
      a * c - b * d;
      a * (c - d) + (a - b) * d;
      a * (k * m) + (j * m) * d;
      { assert a * (k * m) == (a * k) * m; assert (j * m) * d == (j * d) * m; }
      (a * k) * m + (j * d) * m;
      w * m;
    }
    CongIntro(a * c, b * d, m, w);
  }

  lemma CongMod(a: int, m: int)
    requires 0 < m
    ensures Cong(a, a % m, m) && Cong(a % m, a, m)
  {
    assert a - a % m == (a / m) * m;
    CongIntro(a, a % m, m, a / m);
    CongSym(a, a % m, m);
  }

  lemma CongSmall(a: int, b: int, m: int)
    requires 0 < m && Cong(a, b, m) && 0 <= a < m && 0 <= b < m
    ensures a == b
  {
    var k := CongWitness(a, b, m);
    MultipleGap(k, m);
  }

  // ---------- powers ----------

  function Pow(b: int, e: nat): int {
    if e == 0 then 1 else b * Pow(b, e - 1)
  }

  lemma {:induction false} PowAdd(b: int, e: nat, f: nat)
    ensures Pow(b, e + f) == Pow(b, e) * Pow(b, f)
  {
    if e > 0 {
      PowAdd(b, e - 1, f);
      assert Pow(b, e + f) == b * Pow(b, e - 1 + f);
      assert b * (Pow(b, e - 1) * Pow(b, f)) == (b * Pow(b, e - 1)) * Pow(b, f);
    }
  }

  lemma {:induction false} PowCong(a: int, b: int, e: nat, m: int)
    requires 0 < m && Cong(a, b, m)
    ensures Cong(Pow(a, e), Pow(b, e), m)
  {
    if e > 0 {
      PowCong(a, b, e - 1, m);
      CongMul(a, b, Pow(a, e - 1), Pow(b, e - 1), m);
    }
  }

  lemma {:induction false} PowProduct(a: int, b: int, e: nat)
    ensures Pow(a * b, e) == Pow(a, e) * Pow(b, e)
  {
    if e > 0 {
      PowProduct(a, b, e - 1);
      Rearrange(a, b, Pow(a, e - 1), Pow(b, e - 1));
    }
  }

  lemma Rearrange(a: int, b: int, x: int, y: int)
    ensures (a * b) * (x * y) == (a * x) * (b * y)
  {
    calc {
      (a * b) * (x * y);
      a * (b * (x * y));
      { assert b * (x * y) == x * (b * y); }
      a * (x * (b * y));
      (a * x) * (b * y);
    }
  }

  lemma {:induction false} PowOfMinusOne(e: nat)
    ensures Pow(-1, e) == if e % 2 == 0 then 1 else -1
  {
    if e > 0 {
      PowOfMinusOne(e - 1);
    }
  }

  // ---------- primes ----------

  predicate Divides(d: int, n: int)
    requires 0 < d
  {
    Multiple(n, d)
  }

  ghost predicate Prime(p: int) {
    2 <= p && forall d :: 1 < d < p ==> !Divides(d, p)
  }

  /** Congruences only depend on the difference. */
  lemma Shift(a: int, b: int, c: int, d: int, m: int)
    requires 0 < m && Cong(a, b, m) && a - b == c - d
    ensures Cong(c, d, m)
  {
  }

  lemma EuclidStep(p: int, a: int, b: int, k: int, r: int, w: int)
    requires p == a * k + r && a * b - 0 == w * p
    ensures r * b - 0 == (b - k * w) * p
  {
    calc {
      r * b;
      (p - a * k) * b;
      p * b - (a * k) * b;
      { assert (a * k) * b == k * (a * b); }
      p * b - k * (w * p);
      { assert k * (w * p) == (k * w) * p; }
      (b - k * w) * p;
    }
  }

  /** Euclid's lemma, by descent on the first factor. */
  lemma {:induction false} EuclidSmall(p: int, a: int, b: int)
    requires Prime(p) && 0 < a < p && Cong(a * b, 0, p)
    ensures Cong(b, 0, p)
    decreases a
  {
    if a != 1 {
      var k, r := p / a, p % a;
      assert !Divides(a, p);
      assert p == a * k + r;
      if r == 0 { MultipleTimes(k, a); }
      var w := CongWitness(a * b, 0, p);
      EuclidStep(p, a, b, k, r, w);
      CongIntro(r * b, 0, p, b - k * w);
      EuclidSmall(p, r, b);
    }
  }

  lemma Euclid(p: int, a: int, b: int)
    requires Prime(p) && Cong(a * b, 0, p)
    ensures Cong(a, 0, p) || Cong(b, 0, p)
  {
    var r := a % p;
    CongMod(a, p);
    if r != 0 {
      CongMul(r, a, b, b, p);
      CongTrans(r * b, a * b, 0, p);
      EuclidSmall(p, r, b);
    }
  }

  /** A factor that the prime does not divide can be cancelled. */
  lemma Cancel(p: int, c: int, a: int, b: int)
    requires Prime(p) && !Cong(c, 0, p) && Cong(c * a, c * b, p)
    ensures Cong(a, b, p)
  {
    assert c * a - c * b == c * (a - b) - 0;
    Euclid(p, c, a - b);
  }

  // ---------- products over finite sets ----------

  ghost function Pick(s: set<int>): (x: int)
    requires s != {}
    ensures x in s
  {
    assert (forall x :: x !in s) ==> s == {};
    var x :| x in s; x
  }

  ghost function Prod(s: set<int>): int {
    if s == {} then 1 else Pick(s) * Prod(s - {Pick(s)})
  }

  lemma {:induction false} ProdRemove(s: set<int>, x: int)
    requires x in s
    ensures Prod(s) == x * Prod(s - {x})
  {
    var y := Pick(s);
    if x != y {
      ProdRemove(s - {y}, x);
      ProdRemove(s - {x}, y);
      assert s - {y} - {x} == s - {x} - {y};
      var z := Prod(s - {x} - {y});
      assert y * (x * z) == x * (y * z);
    }
  }

  /** The product of f(1), ..., f(n). */
  function ProdTo(f: int -> int, n: nat): int {
    if n == 0 then 1 else f(n) * ProdTo(f, n - 1)
  }

  ghost function Image(f: int -> int, n: nat): set<int> {
    if n == 0 then {} else Image(f, n - 1) + {f(n)}
  }

  ghost predicate Injective(f: int -> int, n: nat) {
    forall i, j :: 1 <= i < j <= n ==> f(i) != f(j)
  }

  lemma {:induction false} ImageMembers(f: int -> int, n: nat, y: int)
    ensures y in Image(f, n) <==> exists i :: 1 <= i <= n && f(i) == y
  {
    if n > 0 {
      ImageMembers(f, n - 1, y);
    }
  }

  lemma {:induction false} ImageProduct(f: int -> int, n: nat)
    requires Injective(f, n)
    ensures |Image(f, n)| == n && Prod(Image(f, n)) == ProdTo(f, n)
  {
    if n > 0 {
      ImageProduct(f, n - 1);
      ImageMembers(f, n - 1, f(n));
      var s := Image(f, n - 1);
      assert f(n) !in s;
      ProdRemove(s + {f(n)}, f(n));
      assert s + {f(n)} - {f(n)} == s;
    }
  }

  /** An injection of 1..n into itself is a permutation, so it keeps the product. */
  lemma PermutedProduct(f: int -> int, n: nat)
    requires Injective(f, n)
    requires forall i :: 1 <= i <= n ==> 1 <= f(i) <= n
    ensures ProdTo(f, n) == ProdTo(x => x, n)
  {
    var id := x => x;
    ImageProduct(f, n);
    ImageProduct(id, n);
    var s, t := Image(f, n), Image(id, n);
    forall y | y in s ensures y in t {
      ImageMembers(f, n, y);
      ImageMembers(id, n, y);
      var i :| 1 <= i <= n && f(i) == y;
      assert id(y) == y;
    }
    assert |t - s| == |t| - |s * t|;
    assert s * t == s;
    assert s == t;
  }

  lemma {:induction false} ProdToCong(f: int -> int, c: int -> int, n: nat, p: int)
    requires 0 < p
    requires forall i :: 1 <= i <= n ==> Cong(f(i), c(i) * i, p)
    ensures Cong(ProdTo(f, n), ProdTo(c, n) * ProdTo(x => x, n), p)
  {
    if n > 0 {
      ProdToCong(f, c, n - 1, p);
      var id := x => x;
      var x, y := ProdTo(c, n - 1), ProdTo(id, n - 1);
      CongMul(f(n), c(n) * n, ProdTo(f, n - 1), x * y, p);
      Rearrange(c(n), n, x, y);
      assert ProdTo(id, n) == n * y;
    }
  }

  lemma {:induction false} FactorialCoprime(n: nat, p: int)
    requires Prime(p) && n < p
    ensures !Cong(ProdTo(x => x, n), 0, p)
  {
    var id := x => x;
    if n > 0 {
      FactorialCoprime(n - 1, p);
      assert ProdTo(id, n) == n * ProdTo(id, n - 1);
      if Cong(n * ProdTo(id, n - 1), 0, p) {
        Euclid(p, n, ProdTo(id, n - 1));
        CongSmall(n, 0, p);
      }
    } else {
      if Cong(1, 0, p) { CongSmall(1, 0, p); }
    }
  }

  /** If an injection of 1..n into itself multiplies each i by c(i) modulo p,
      then the multipliers have product one. Fermat and Gauss both use it. */
  lemma MultiplierProduct(f: int -> int, c: int -> int, n: nat, p: int)
    requires Prime(p) && n < p
    requires Injective(f, n)
    requires forall i :: 1 <= i <= n ==> 1 <= f(i) <= n
    requires forall i :: 1 <= i <= n ==> Cong(f(i), c(i) * i, p)
    ensures Cong(ProdTo(c, n), 1, p)
  {
    var id := x => x;
    var fact := ProdTo(id, n);
    PermutedProduct(f, n);
    ProdToCong(f, c, n, p);
    FactorialCoprime(n, p);
    assert Cong(fact * 1, fact * ProdTo(c, n), p);
    Cancel(p, fact, 1, ProdTo(c, n));
    CongSym(1, ProdTo(c, n), p);
  }

  lemma {:induction false} ProdToConst(a: int, n: nat)
    ensures ProdTo(x => a, n) == Pow(a, n)
  {
    if n > 0 {
      ProdToConst(a, n - 1);
      var k := x => a;
      assert ProdTo(k, n) == a * ProdTo(k, n - 1);
    }
  }

  /** Fermat's little theorem. */
  lemma Fermat(a: int, p: int)
    requires Prime(p) && !Cong(a, 0, p)
    ensures Cong(Pow(a, p - 1), 1, p)
  {
    var f := (i: int) => (a * i) % p;
    var c := (i: int) => a;
    var n := p - 1;
    forall i | 1 <= i <= n
      ensures 1 <= f(i) <= n && Cong(f(i), c(i) * i, p)
    {
      CongMod(a * i, p);
      if f(i) == 0 {
        Euclid(p, a, i);
        CongSmall(i, 0, p);
      }
    }
    forall i, j | 1 <= i < j <= n ensures f(i) != f(j) {
      if f(i) == f(j) {
        CongMod(a * i, p);
        CongMod(a * j, p);
        CongTrans(a * i, f(i), a * j, p);
        Cancel(p, a, i, j);
        CongSmall(i, j, p);
      }
    }
    MultiplierProduct(f, c, n, p);
    ProdToConst(a, n);
  }

  // ---------- quadratic residues ----------

  /** The definition of a quadratic residue, with the root in its usual range. */
  predicate Residue(a: int, p: int)
    requires 0 < p
  {
    exists x :: 0 <= x < p && Cong(x * x, a, p)
  }

  lemma ResidueIntro(a: int, p: int, x: int)
    requires 0 < p && Cong(x * x, a, p)
    ensures Residue(a, p)
  {
    var y := x % p;
    CongMod(x, p);
    CongMul(y, x, y, x, p);
    CongTrans(y * y, x * x, a, p);
  }

  lemma OddHalf(p: int)
    requires Prime(p) && p % 4 == 3
    ensures ((p - 1) / 2) % 2 == 1 && 2 * ((p - 1) / 2) == p - 1
    ensures 2 * ((p + 1) / 4) == (p - 1) / 2 + 1
  {
  }

  /** The only roots of one modulo a prime are one and minus one. */
  lemma RootsOfOne(y: int, p: int)
    requires Prime(p) && Cong(y * y, 1, p)
    ensures Cong(y, 1, p) || Cong(y, -1, p)
  {
    Shift(y * y, 1, (y - 1) * (y + 1), 0, p);
    Euclid(p, y - 1, y + 1);
    if Cong(y - 1, 0, p) {
      Shift(y - 1, 0, y, 1, p);
    } else {
      Shift(y + 1, 0, y, -1, p);
    }
  }

  /** The half power of a number prime to p is plus or minus one. */
  lemma HalfPowerSign(a: int, p: int)
    requires Prime(p) && p % 4 == 3 && !Cong(a, 0, p)
    ensures Cong(Pow(a, (p - 1) / 2), 1, p) || Cong(Pow(a, (p - 1) / 2), -1, p)
  {
    var h := (p - 1) / 2;
    assert h + h == p - 1;
    PowAdd(a, h, h);
    Fermat(a, p);
    RootsOfOne(Pow(a, h), p);
  }

  /** (a^((p+1)/4))^2 = a * a^((p-1)/2). */
  lemma RootSquare(a: int, p: int)
    requires Prime(p) && p % 4 == 3
    ensures var y := Pow(a, (p + 1) / 4); y * y == a * Pow(a, (p - 1) / 2)
  {
    PowAdd(a, (p + 1) / 4, (p + 1) / 4);
    OddHalf(p);
  }

  lemma EulerForward(a: int, p: int, x: int)
    requires Prime(p) && p % 4 == 3 && !Cong(a, 0, p) && Cong(x * x, a, p)
    ensures Cong(Pow(a, (p - 1) / 2), 1, p)
  {
    var h := (p - 1) / 2;
    if Cong(x, 0, p) {
      CongMul(x, 0, x, 0, p);
      CongSym(x * x, a, p);
      CongTrans(a, x * x, 0, p);
    }
    Fermat(x, p);
    PowCong(x * x, a, h, p);
    PowProduct(x, x, h);
    PowAdd(x, h, h);
    assert h + h == p - 1;
    CongSym(Pow(x * x, h), Pow(a, h), p);
    CongTrans(Pow(a, h), Pow(x, p - 1), 1, p);
  }

  lemma EulerBackward(a: int, p: int)
    requires Prime(p) && p % 4 == 3 && Cong(Pow(a, (p - 1) / 2), 1, p)
    ensures Residue(a, p)
  {
    RootSquare(a, p);
    CongMul(a, a, Pow(a, (p - 1) / 2), 1, p);
    ResidueIntro(a, p, Pow(a, (p + 1) / 4));
  }

  lemma SignsDiffer(y: int, p: int)
    requires Prime(p) && p % 4 == 3
    ensures !(Cong(y, 1, p) && Cong(y, -1, p))
  {
    if Cong(y, 1, p) && Cong(y, -1, p) {
      CongSym(y, -1, p);
      CongTrans(-1, y, 1, p);
      CongSym(-1, 1, p);
      CongSmall(2, 0, p);
    }
  }

  /** Euler's criterion for primes that are 3 modulo 4, in both directions. */
  lemma Euler(a: int, p: int)
    requires Prime(p) && p % 4 == 3 && !Cong(a, 0, p)
    ensures Residue(a, p) <==> Cong(Pow(a, (p - 1) / 2), 1, p)
    ensures !Residue(a, p) <==> Cong(Pow(a, (p - 1) / 2), -1, p)
  {
    if Residue(a, p) {
      var x :| 0 <= x < p && Cong(x * x, a, p);
      EulerForward(a, p, x);
    } else if Cong(Pow(a, (p - 1) / 2), 1, p) {
      EulerBackward(a, p);
    }
    HalfPowerSign(a, p);
    SignsDiffer(Pow(a, (p - 1) / 2), p);
  }

  /** The product of two numbers prime to p is a residue exactly when both or neither are. */
  lemma ResidueProduct(a: int, b: int, p: int)
    requires Prime(p) && p % 4 == 3 && !Cong(a, 0, p) && !Cong(b, 0, p)
    ensures !Cong(a * b, 0, p)
    ensures Residue(a * b, p) <==> (Residue(a, p) <==> Residue(b, p))
  {
    var h := (p - 1) / 2;
    if Cong(a * b, 0, p) { Euclid(p, a, b); }
    Euler(a, p);
    Euler(b, p);
    Euler(a * b, p);
    PowProduct(a, b, h);
    var s := if Residue(a, p) then 1 else -1;
    var t := if Residue(b, p) then 1 else -1;
    CongMul(Pow(a, h), s, Pow(b, h), t, p);
  }

  lemma MinusOneNonResidue(p: int)
    requires Prime(p) && p % 4 == 3
    ensures !Cong(-1, 0, p) && !Residue(-1, p)
  {
    var h := (p - 1) / 2;
    PowOfMinusOne(h);
    OddHalf(p);
    Euler(-1, p);
    assert Cong(-1, -1, p);
  }

  // ---------- the quadratic character of 2 ----------

  /** Products of 2 up to the middle and of -2 after it. */
  lemma {:induction false} SignedTwos(h: nat, n: nat)
    requires n <= h
    ensures var c := (i: int) => if 2 * i <= h then 2 else -2;
      ProdTo(c, n) == Pow(2, n) * Pow(-1, if n <= h / 2 then 0 else n - h / 2)
  {
    if n > 0 {
      SignedTwos(h, n - 1);
      var c := (i: int) => if 2 * i <= h then 2 else -2;
      assert ProdTo(c, n) == c(n) * ProdTo(c, n - 1);
      var x := Pow(2, n - 1);
      var y := Pow(-1, if n - 1 <= h / 2 then 0 else n - 1 - h / 2);
      if n <= h / 2 {
        assert 2 * (x * y) == (2 * x) * y;
      } else {
        Rearrange(2, -1, x, y);
      }
    }
  }

  /** Gauss's argument: folding 2, 4, ..., 2h into 1..h changes 2^h by a sign only. */
  lemma DoubleStays(i: int, h: int, p: int)
    requires 1 <= i <= h && 2 * h + 1 == p
    ensures 2 * i <= h ==> Cong(2 * i, 2 * i, p)
    ensures 2 * i > h ==> 1 <= p - 2 * i <= h && Cong(p - 2 * i, -2 * i, p)
  {
    if 2 * i <= h {
      CongIntro(2 * i, 2 * i, p, 0);
    } else {
      CongIntro(p - 2 * i, -2 * i, p, 1);
    }
  }

  lemma GaussForTwo(p: int)
    requires Prime(p) && p % 4 == 3 && 3 < p
    ensures var h := (p - 1) / 2; Cong(Pow(2, h) * Pow(-1, h - h / 2), 1, p)
  {
    var h := (p - 1) / 2;
    var f := (i: int) => if 2 * i <= h then 2 * i else p - 2 * i;
    var c := (i: int) => if 2 * i <= h then 2 else -2;
    assert 2 * h + 1 == p;
    forall i | 1 <= i <= h
      ensures 1 <= f(i) <= h && Cong(f(i), c(i) * i, p)
    {
      DoubleStays(i, h, p);
    }
    MultiplierProduct(f, c, h, p);
    SignedTwos(h, h);
  }

  lemma TwoCharacter(p: int)
    requires Prime(p) && (p % 8 == 3 || p % 8 == 7)
    ensures !Cong(2, 0, p)
    ensures Residue(2, p) <==> p % 8 == 7
  {
    var h := (p - 1) / 2;
    Euler(2, p);
    TwoHalfPower(p);
  }

  lemma OddGap(p: int)
    requires p % 8 == 3 || p % 8 == 7
    ensures var h := (p - 1) / 2; (h - h / 2) % 2 == if p % 8 == 3 then 1 else 0
  {
  }

  lemma NegateCong(x: int, s: int, p: int)
    requires 0 < p && (s == 1 || s == -1) && Cong(x * s, 1, p)
    ensures Cong(x, s, p)
  {
    CongMul(x * s, 1, s, s, p);
    assert x * s * s == x;
  }

  lemma GaussSign(p: int, h: nat, s: int)
    requires Prime(p) && p % 4 == 3 && 3 < p && h == (p - 1) / 2 && Pow(-1, h - h / 2) == s
    ensures Cong(Pow(2, h) * s, 1, p)
  {
    GaussForTwo(p);
  }

  lemma TwoOfThree()
    ensures Cong(Pow(2, 1), -1, 3)
  {
    assert Pow(2, 1) == 2;
    CongIntro(2, -1, 3, 1);
  }

  lemma TwoHalfPower(p: int)
    requires Prime(p) && (p % 8 == 3 || p % 8 == 7)
    ensures Cong(Pow(2, (p - 1) / 2), if p % 8 == 7 then 1 else -1, p)
  {
    var h := (p - 1) / 2;
    if p == 3 {
      TwoOfThree();
    } else {
      var s := if p % 8 == 7 then 1 else -1;
      assert Pow(-1, h - h / 2) == s by {
        PowOfMinusOne(h - h / 2);
        OddGap(p);
      }
      assert Cong(Pow(2, h) * s, 1, p) by {
        GaussSign(p, h, s);
      }
      assert Cong(Pow(2, h), s, p) by {
        NegateCong(Pow(2, h), s, p);
      }
    }
  }
}
