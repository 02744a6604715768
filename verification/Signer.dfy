/** The application signer: the choice of the multiplier f, the two modular square roots,
    their recombination, and the signature block appended to an application.
    GMP integers are mathematical integers; MD5 is an arbitrary 16-byte number. */
module Signer {
  import opened NumberTheory

  /** The numbers siggen reads from its tables. */
  datatype Key = Key(p: nat, q: nat, n: nat, pRoot: nat, qRoot: nat, qInverse: nat)

  /** What the tables must satisfy for signing to work. */
  ghost predicate GoodKey(k: Key) {
    && Prime(k.p) && Prime(k.q)
    && k.p % 8 == 3 && k.q % 8 == 7
    && k.n == k.p * k.q
    && 4 * k.pRoot == k.p + 1 && 4 * k.qRoot == k.q + 1
    && Cong(k.q * k.qInverse, 1, k.p)
  }

  /** Room for every message: a 16-byte hash times 256, plus one, stays below both primes. */
  predicate WideKey(k: Key) {
    HASH_LIMIT * 256 < k.p && HASH_LIMIT * 256 < k.q
  }

  const HASH_LIMIT := 0x1_00000000_00000000_00000000_00000000

  // ---------- the Legendre symbol and f ----------

  function Legendre(a: int, p: int): (r: int)
    requires 0 < p
    ensures r == 1 <==> !Cong(a, 0, p) && Residue(a, p)
  {
    if Cong(a, 0, p) then 0 else if Residue(a, p) then 1 else -1
  }

  /** What f says about the message: the signature is a root of -2, -1, 1 or 2 times it. */
  function Multiplier(f: nat): int {
    if f == 0 then -2 else if f == 1 then -1 else if f == 2 then 1 else 2
  }

  ghost predicate HasRoot(a: int, n: int)
    requires 0 < n
  {
    exists x: int :: Cong(x * x, a, n)
  }

  /** x is a signature of m under multiplier f: a root that is itself a residue modulo both primes. */
  ghost predicate Signs(x: int, f: nat, m: int, k: Key)
    requires GoodKey(k)
  {
    && 0 <= x < k.n
    && Cong(x * x, Multiplier(f) * m, k.n)
    && Residue(x, k.p) && Residue(x, k.q)
  }

  lemma MultiplierCharacters(f: nat, k: Key)
    requires GoodKey(k) && f <= 3
    ensures !Cong(Multiplier(f), 0, k.p) && !Cong(Multiplier(f), 0, k.q)
    ensures Residue(Multiplier(f), k.p) <==> f % 2 == 0
    ensures Residue(Multiplier(f), k.q) <==> f >= 2
  {
    PrimeCharacters(f, k.p);
    PrimeCharacters(f, k.q);
  }

  lemma PrimeCharacters(f: nat, p: int)
    requires Prime(p) && (p % 8 == 3 || p % 8 == 7) && f <= 3
    ensures !Cong(Multiplier(f), 0, p)
    ensures Residue(Multiplier(f), p) <==> if p % 8 == 3 then f % 2 == 0 else f >= 2
  {
    TwoCharacter(p);
    MinusOneNonResidue(p);
    ResidueProduct(-1, 2, p);
    OneIsResidue(p);
  }

  lemma OneIsResidue(p: int)
    requires Prime(p)
    ensures !Cong(1, 0, p) && Residue(1, p)
  {
    if Cong(1, 0, p) { CongSmall(1, 0, p); }
    assert Cong(1 * 1, 1, p);
    ResidueIntro(1, p, 1);
  }

  /** The four multipliers meet the four Legendre cases one to one: exactly the f that
      siggen computes turns the message into a residue modulo both primes. */
  lemma ChosenMultiplier(m: int, f: nat, k: Key)
    requires GoodKey(k) && f <= 3
    requires !Cong(m, 0, k.p) && !Cong(m, 0, k.q)
    ensures !Cong(Multiplier(f) * m, 0, k.p) && !Cong(Multiplier(f) * m, 0, k.q)
    ensures Residue(Multiplier(f) * m, k.p) && Residue(Multiplier(f) * m, k.q)
      <==> f == (if Legendre(m, k.p) == 1 then 0 else 1) + (if Legendre(m, k.q) == 1 then 2 else 0)
  {
    MultiplierCharacters(f, k);
    ResidueProduct(Multiplier(f), m, k.p);
    ResidueProduct(Multiplier(f), m, k.q);
    FourCases(f, Residue(m, k.p), Residue(m, k.q));
  }

  /** Each pair of characters has its own f. */
  lemma FourCases(f: nat, a: bool, b: bool)
    requires f <= 3
    ensures (f % 2 == 0 <==> a) && (f >= 2 <==> b) <==> f == (if a then 0 else 1) + (if b then 2 else 0)
  {
  }

  // ---------- one prime ----------

  /** The power (p+1)/4 of a residue is a root of it, and a residue itself. */
  lemma PrimeRoot(a: int, p: int, e: nat, r: int)
    requires Prime(p) && 4 * e == p + 1 && !Cong(a, 0, p) && Residue(a, p)
    requires r == Pow(a, e) % p
    ensures Cong(r * r, a, p) && Residue(r, p)
  {
    assert e == (p + 1) / 4;
    var y := Pow(a, e);
    CongMod(y, p);
    RootSquare(a, p);
    Euler(a, p);
    CongMul(a, a, Pow(a, (p - 1) / 2), 1, p);
    assert Cong(y * y, a, p);
    CongMul(r, y, r, y, p);
    CongTrans(r * r, y * y, a, p);
    var x :| 0 <= x < p && Cong(x * x, a, p);
    PowCong(x * x, a, e, p);
    PowProduct(x, x, e);
    CongTrans(Pow(x, e) * Pow(x, e), y, r, p);
    ResidueIntro(r, p, Pow(x, e));
  }

  /** Two roots that are both residues agree: the other root is the negative, a non-residue. */
  lemma ResidueRootUnique(x: int, y: int, p: int)
    requires Prime(p) && p % 4 == 3
    requires Cong(x * x, y * y, p) && !Cong(x, 0, p) && !Cong(y, 0, p)
    requires Residue(x, p) && Residue(y, p)
    ensures Cong(x, y, p)
  {
    SquareGap(x, y);
    SameGap(x * x, y * y, (x - y) * (x + y), 0, p);
    Euclid(p, x - y, x + y);
    if Cong(x - y, 0, p) {
      SameGap(x - y, 0, x, y, p);
    } else {
      OppositeRoots(x, y, p);
      assert false;
    }
  }

  lemma SquareGap(x: int, y: int)
    ensures (x - y) * (x + y) == x * x - y * y
  {
  }

  lemma SameGap(a: int, b: int, c: int, d: int, m: int)
    requires 0 < m && Cong(a, b, m) && a - b == c - d
    ensures Cong(c, d, m)
  {
    var k := CongWitness(a, b, m);
    CongIntro(c, d, m, k);
  }

  lemma OppositeRoots(x: int, y: int, p: int)
    requires Prime(p) && p % 4 == 3 && Cong(x + y, 0, p) && !Cong(y, 0, p)
    ensures !(Residue(x, p) && Residue(y, p))
  {
    SameGap(x + y, 0, x, -1 * y, p);
    MinusOneNonResidue(p);
    ResidueProduct(-1, y, p);
    if Residue(x, p) { ResidueCong(x, -1 * y, p); }
  }

  lemma ResidueCong(a: int, b: int, p: int)
    requires 0 < p && Cong(a, b, p) && Residue(a, p)
    ensures Residue(b, p)
  {
    var x :| 0 <= x < p && Cong(x * x, a, p);
    CongTrans(x * x, a, b, p);
  }

  lemma RootNonZero(x: int, a: int, p: int)
    requires Prime(p) && Cong(x * x, a, p) && !Cong(a, 0, p)
    ensures !Cong(x, 0, p)
  {
    if Cong(x, 0, p) {
      CongMul(x, 0, x, 0, p);
      CongSym(x * x, a, p);
      CongTrans(a, x * x, 0, p);
    }
  }

  // ---------- both primes ----------

  lemma Regroup(w: int, p: int, q: int)
    ensures w * (p * q) == (w * q) * p && w * (p * q) == (w * p) * q
  {
  }

  lemma CongFactor(a: int, b: int, p: int, q: int)
    requires 0 < p && 0 < q && Cong(a, b, p * q)
    ensures Cong(a, b, p) && Cong(a, b, q)
  {
    var w := CongWitness(a, b, p * q);
    Regroup(w, p, q);
    CongIntro(a, b, p, w * q);
    CongIntro(a, b, q, w * p);
  }

  /** Chinese remaindering, uniqueness half. */
  lemma CongBoth(a: int, b: int, p: int, q: int)
    requires Prime(p) && Prime(q) && p != q
    requires Cong(a, b, p) && Cong(a, b, q)
    ensures Cong(a, b, p * q)
  {
    var w := CongWitness(a, b, q);
    Euclid(p, w, q);
    if !Cong(w, 0, p) {
      DistinctPrimes(p, q);
    }
    var v := CongWitness(w, 0, p);
    assert (v * p) * q == v * (p * q);
    CongIntro(a, b, p * q, v);
  }

  lemma DistinctPrimes(p: int, q: int)
    requires Prime(p) && Prime(q) && p != q
    ensures !Cong(q, 0, p)
  {
    if p < q {
      assert !Divides(p, q);
    } else if Cong(q, 0, p) {
      CongSmall(q, 0, p);
    }
  }

  lemma MixedRadix(t: int, s: int, p: int, q: int)
    requires 0 <= t < p && 0 <= s < q
    ensures 0 <= t * q + s < p * q
  {
    assert (p - 1 - t) * q >= 0;
    assert (p - 1 - t) * q == p * q - q - t * q;
  }

  /** ((r - s) * qInverse mod p) * q + s is r modulo p, s modulo q, and below p * q. */
  lemma Recombine(r: int, s: int, p: int, q: int, inverse: int, t: int, x: int)
    requires 0 < p && 0 <= s < q && Cong(q * inverse, 1, p)
    requires t == ((r - s) * inverse) % p && x == t * q + s
    ensures 0 <= x < p * q && Cong(x, r, p) && Cong(x, s, q)
  {
    MixedRadix(t, s, p, q);
    CongIntro(x, s, q, t);
    GarnerStep(r - s, inverse, q, t, p);
    AddBack(t * q, r, s, p);
  }

  lemma AddBack(y: int, r: int, s: int, p: int)
    requires 0 < p && Cong(y, r - s, p)
    ensures Cong(y + s, r, p)
  {
    assert y + s - r == y - (r - s);
  }

  lemma GarnerStep(d: int, inverse: int, q: int, t: int, p: int)
    requires 0 < p && t == (d * inverse) % p && Cong(q * inverse, 1, p)
    ensures Cong(t * q, d, p)
  {
    CongMod(d * inverse, p);
    CongMul(t, d * inverse, q, q, p);
    assert Cong(d, d, p);
    CongMul(d, d, q * inverse, 1, p);
    assert (d * inverse) * q == d * (q * inverse);
    CongTrans(t * q, (d * inverse) * q, d, p);
  }

  lemma RootsAgree(x: int, y: int, a: int, p: int)
    requires Prime(p) && p % 4 == 3 && !Cong(a, 0, p)
    requires Cong(x * x, a, p) && Cong(y * y, a, p) && Residue(x, p) && Residue(y, p)
    ensures Cong(x, y, p)
  {
    RootNonZero(x, a, p);
    RootNonZero(y, a, p);
    CongSym(y * y, a, p);
    CongTrans(x * x, a, y * y, p);
    ResidueRootUnique(x, y, p);
  }

  /** Roots of one number modulo n that are residues modulo one of its two primes agree modulo that prime. */
  lemma RootsAgreeModulo(x: int, y: int, a: int, n: int, p: int, other: int)
    requires Prime(p) && p % 4 == 3 && 0 < other && n == p * other && !Cong(a, 0, p)
    requires Cong(x * x, a, n) && Residue(x, p) && Cong(y * y, a, n) && Residue(y, p)
    ensures Cong(x, y, p)
  {
    CongFactor(x * x, a, p, other);
    CongFactor(y * y, a, p, other);
    RootsAgree(x, y, a, p);
  }

  lemma UniqueRoot(x: int, y: int, a: int, n: int, p: int, q: int)
    requires Prime(p) && Prime(q) && p % 4 == 3 && q % 4 == 3 && p != q && n == p * q && n == q * p
    requires !Cong(a, 0, p) && !Cong(a, 0, q) && 0 <= x < n && 0 <= y < n
    requires Cong(x * x, a, n) && Residue(x, p) && Residue(x, q)
    requires Cong(y * y, a, n) && Residue(y, p) && Residue(y, q)
    ensures x == y
  {
    assert Cong(x, y, p) by {
      RootsAgreeModulo(x, y, a, n, p, q);
    }
    assert Cong(x, y, q) by {
      RootsAgreeModulo(x, y, a, n, q, p);
    }
    assert Cong(x, y, n) by {
      CongBoth(x, y, p, q);
    }
    CongSmall(x, y, n);
  }

  /** A product of the two primes, either way round. */
  lemma Commute(k: Key)
    requires GoodKey(k)
    ensures k.n == k.q * k.p && k.p != k.q && k.p % 4 == 3 && k.q % 4 == 3
  {
  }

  /** At most one signature exists, and only for the f that siggen computes. */
  lemma SignatureUnique(m: int, k: Key, x: int, f: nat, y: int, g: nat)
    requires GoodKey(k) && !Cong(m, 0, k.p) && !Cong(m, 0, k.q)
    requires f <= 3 && g <= 3 && Signs(x, f, m, k) && Signs(y, g, m, k)
    ensures f == g && x == y
  {
    RootFixesMultiplier(m, k, x, f);
    RootFixesMultiplier(m, k, y, g);
    var a := Multiplier(f) * m;
    assert !Cong(a, 0, k.p) && !Cong(a, 0, k.q) by {
      ChosenMultiplier(m, f, k);
    }
    Commute(k);
    UniqueRoot(x, y, a, k.n, k.p, k.q);
  }

  lemma RootFixesMultiplier(m: int, k: Key, x: int, f: nat)
    requires GoodKey(k) && !Cong(m, 0, k.p) && !Cong(m, 0, k.q)
    requires f <= 3 && Cong(x * x, Multiplier(f) * m, k.n)
    ensures f == (if Legendre(m, k.p) == 1 then 0 else 1) + (if Legendre(m, k.q) == 1 then 2 else 0)
  {
    var a := Multiplier(f) * m;
    CongFactor(x * x, a, k.p, k.q);
    ResidueIntro(a, k.p, x);
    ResidueIntro(a, k.q, x);
    ChosenMultiplier(m, f, k);
  }

  // ---------- siggen ----------

  /** The padded message M' = 256 m + 1. */
  function Message(hash: nat): nat {
    hash * 256 + 1
  }

  /** One more than 256 times the hash is prime to both factors of the stored modulus. */
  lemma MessageCoprime(hash: nat, k: Key)
    requires GoodKey(k) && WideKey(k) && hash < HASH_LIMIT
    ensures !Cong(Message(hash), 0, k.p) && !Cong(Message(hash), 0, k.q)
  {
    var m := Message(hash);
    if Cong(m, 0, k.p) { CongSmall(m, 0, k.p); }
    if Cong(m, 0, k.q) { CongSmall(m, 0, k.q); }
  }

  /** mpz_powm. */
  function PowM(b: int, e: nat, m: int): int
    requires 0 < m
  {
    Pow(b, e) % m
  }

  /** f and the adjusted hash are ready for the root step: congruent to the multiple of the message
      that f stands for, prime to both factors and a residue modulo both. */
  ghost predicate Adjusted(a: int, f: nat, m: int, k: Key)
    requires GoodKey(k)
  {
    && f <= 3 && Cong(a, Multiplier(f) * m, k.n)
    && !Cong(a, 0, k.p) && Residue(a, k.p) && !Cong(a, 0, k.q) && Residue(a, k.q)
  }

  /** siggen's choice of f, and what it does to the hash for it. */
  method ChooseF(hash: nat, k: Key) returns (f: nat, mhash: int)
    requires GoodKey(k) && WideKey(k) && hash < HASH_LIMIT
    ensures Adjusted(mhash, f, Message(hash), k)
  {
    MessageCoprime(hash, k);
    mhash := hash * 256;
    mhash := mhash + 1;
    ghost var m := mhash;
    var lp := if Legendre(mhash, k.p) == 1 then 0 else 1;
    var lq := if Legendre(mhash, k.q) == 1 then 1 else 0;
    f := lp + lq + lq;
    if lp == lq {
      mhash := mhash * 2;
    }
    if lq == 0 {
      mhash := k.n - mhash;
    }
    AdjustedMessage(m, mhash, f, k);
  }

  /** The roots modulo the two primes and their recombination. */
  method RootOf(mhash: int, k: Key) returns (result: int)
    requires GoodKey(k)
    requires !Cong(mhash, 0, k.p) && Residue(mhash, k.p) && !Cong(mhash, 0, k.q) && Residue(mhash, k.q)
    ensures 0 < result < k.n && Cong(result * result, mhash, k.n) && Residue(result, k.p) && Residue(result, k.q)
  {
    var r := PowM(mhash, k.pRoot, k.p);
    var s := PowM(mhash, k.qRoot, k.q);
    PrimeRoot(mhash, k.p, k.pRoot, r);
    PrimeRoot(mhash, k.q, k.qRoot, s);
    result := Garner(r, s, k);
    JoinRoots(mhash, r, s, k.p, k.q, result);
  }

  method Garner(r: int, s: int, k: Key) returns (result: int)
    requires GoodKey(k) && 0 <= s < k.q
    ensures 0 <= result < k.n && Cong(result, r, k.p) && Cong(result, s, k.q)
  {
    var temp := r - s;
    temp := temp * k.qInverse;
    temp := temp % k.p;
    result := temp * k.q;
    result := result + s;
    Recombine(r, s, k.p, k.q, k.qInverse, temp, result);
  }

  /** The steps of siggen on its mpz variables. */
  method Siggen(hash: nat, k: Key) returns (f: nat, sig: nat)
    requires GoodKey(k) && WideKey(k) && hash < HASH_LIMIT
    ensures f <= 3 && 0 < sig && Signs(sig, f, Message(hash), k)
    ensures forall g: nat :: g <= 3 && HasRoot(Multiplier(g) * Message(hash), k.n) ==> g == f
    ensures forall g: nat, x :: g <= 3 && Signs(x, g, Message(hash), k) ==> g == f && x == sig
  {
    var mhash;
    f, mhash := ChooseF(hash, k);
    sig := RootOf(mhash, k);
    RootSigns(sig, mhash, f, Message(hash), k);
    MessageCoprime(hash, k);
    SignaturesAgree(Message(hash), k, f, sig);
  }

  lemma RootSigns(x: int, a: int, f: nat, m: int, k: Key)
    requires GoodKey(k) && Adjusted(a, f, m, k)
    requires 0 < x < k.n && Cong(x * x, a, k.n) && Residue(x, k.p) && Residue(x, k.q)
    ensures Signs(x, f, m, k)
  {
    CongTrans(x * x, a, Multiplier(f) * m, k.n);
  }

  /** Doubling and subtracting from n amount to the multiplier, and leave a residue modulo both primes. */
  lemma AdjustedMessage(m: int, a: int, f: nat, k: Key)
    requires GoodKey(k) && f <= 3
    requires !Cong(m, 0, k.p) && !Cong(m, 0, k.q)
    requires f == (if Legendre(m, k.p) == 1 then 0 else 1) + (if Legendre(m, k.q) == 1 then 2 else 0)
    requires a == Multiplier(f) * m || a == k.n + Multiplier(f) * m
    ensures Cong(a, Multiplier(f) * m, k.n)
    ensures !Cong(a, 0, k.p) && Residue(a, k.p)
    ensures !Cong(a, 0, k.q) && Residue(a, k.q)
  {
    var b := Multiplier(f) * m;
    ChosenMultiplier(m, f, k);
    CongIntro(a, b, k.n, if a == b then 0 else 1);
    CongFactor(a, b, k.p, k.q);
    CharacterStays(b, a, k.p);
    CharacterStays(b, a, k.q);
  }

  lemma CharacterStays(b: int, a: int, p: int)
    requires 0 < p && Cong(a, b, p) && !Cong(b, 0, p) && Residue(b, p)
    ensures !Cong(a, 0, p) && Residue(a, p)
  {
    CongSym(a, b, p);
    ResidueCong(b, a, p);
    if Cong(a, 0, p) { CongTrans(b, a, 0, p); }
  }

  /** A root modulo each prime recombines to a root modulo the product. */
  lemma JoinRoots(a: int, r: int, s: int, p: int, q: int, x: int)
    requires Prime(p) && Prime(q) && p != q && !Cong(a, 0, p)
    requires Cong(r * r, a, p) && Residue(r, p) && Cong(s * s, a, q) && Residue(s, q)
    requires Cong(x, r, p) && Cong(x, s, q)
    ensures x != 0 && Cong(x * x, a, p * q) && Residue(x, p) && Residue(x, q)
  {
    RootTransfer(x, r, a, p);
    RootTransfer(x, s, a, q);
    CongBoth(x * x, a, p, q);
    RootNonZero(x, a, p);
  }

  lemma RootTransfer(x: int, r: int, a: int, p: int)
    requires 0 < p && Cong(x, r, p) && Cong(r * r, a, p) && Residue(r, p)
    ensures Cong(x * x, a, p) && Residue(x, p)
  {
    CongMul(x, r, x, r, p);
    CongTrans(x * x, r * r, a, p);
    CongSym(x, r, p);
    ResidueCong(r, x, p);
  }

  lemma SignaturesAgree(m: int, k: Key, f: nat, sig: int)
    requires GoodKey(k) && !Cong(m, 0, k.p) && !Cong(m, 0, k.q)
    requires f <= 3 && Signs(sig, f, m, k)
    ensures forall g: nat :: g <= 3 && HasRoot(Multiplier(g) * m, k.n) ==> g == f
    ensures forall g: nat, x :: g <= 3 && Signs(x, g, m, k) ==> g == f && x == sig
  {
    forall g: nat | g <= 3 && HasRoot(Multiplier(g) * m, k.n) ensures g == f {
      var x: int :| Cong(x * x, Multiplier(g) * m, k.n);
      RootFixesMultiplier(m, k, x, g);
      RootFixesMultiplier(m, k, sig, f);
    }
    forall g: nat, x | g <= 3 && Signs(x, g, m, k) ensures g == f && x == sig {
      SignatureUnique(m, k, x, g, sig, f);
    }
  }
}
