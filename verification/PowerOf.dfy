/**
 Compile-time powers: the template recursion on the exponent, in 64-bit
 arithmetic that wraps around.
 */
module PowerOf {

  const WORD: nat := 0x1_0000_0000_0000_0000

  /** A `uint64_t`. */
  type word = x: int | 0 <= x < WORD

  /** `PowerOf<a, b>::Value` */
  function Value(a: word, b: word): word {
    if b == 0 then 1 else (a * Value(a, b - 1)) % WORD
  }

  /** The power as a mathematical number. */
  function Pow(a: nat, b: nat): (p: nat)
    ensures a > 0 ==> p > 0
  {
    if b == 0 then 1 else a * Pow(a, b - 1)
  }

  // --- Arithmetic modulo m ---

  lemma ModUnique(x: int, q: int, r: int, m: int)
    requires m > 0 && x == q * m + r && 0 <= r < m
    ensures x % m == r
  {
    var d := x / m - q;
    assert x == m * (x / m) + x % m;
    assert m * d == r - x % m;
    assert d >= 1 ==> m * d >= m;
    assert d <= -1 ==> m * d <= -m;
  }

  lemma ModMul(x: int, y: int, m: int)
    requires m > 0
    ensures (x * (y % m)) % m == (x * y) % m
  {
    var q, r := y / m, y % m;
    var z := x * r;
    assert x * y == x * (q * m + r) == (x * q) * m + z;
    assert z == (z / m) * m + z % m;
    assert x * y == (x * q + z / m) * m + z % m;
    ModUnique(x * y, x * q + z / m, z % m, m);
  }

  lemma MulAssoc(a: int, b: int, c: int)
    ensures a * (b * c) == (a * b) * c
  {
  }

  lemma Shuffle(x: int, y: int, p: int, q: int)
    ensures (x * y) * (p * q) == (x * p) * (y * q)
  {
    assert (x * y) * (p * q) == x * (y * (p * q)) == x * (p * (y * q));
  }

  lemma Cancel(a: int, b: int, c: int)
    requires a > 0 && a * b == a * c
    ensures b == c
  {
    assert a * (b - c) == 0;
  }

  // --- The recursion computes powers modulo 2^64 ---

  /** Wrapping at every step is wrapping once. */
  lemma {:induction false} ValueIsPow(a: word, b: word)
    ensures Value(a, b) == Pow(a, b) % WORD
  {
    if b > 0 {
      ValueIsPow(a, b - 1);
      ModMul(a, Pow(a, b - 1), WORD);
    }
  }

  lemma {:induction false} PowAdd(a: nat, m: nat, n: nat)
    ensures Pow(a, m + n) == Pow(a, m) * Pow(a, n)
  {
    if m > 0 {
      PowAdd(a, m - 1, n);
      MulAssoc(a, Pow(a, m - 1), Pow(a, n));
    }
  }

  /** The wrapped powers multiply as powers do, as long as the exponents can be added. */
  lemma ValueAdd(a: word, m: word, n: word)
    requires m + n < WORD
    ensures Value(a, m + n) == (Value(a, m) * Value(a, n)) % WORD
  {
    ValueIsPow(a, m);
    ValueIsPow(a, n);
    ValueIsPow(a, m + n);
    PowAdd(a, m, n);
    var x, y := Pow(a, m), Pow(a, n);
    ModMul(x % WORD, y, WORD);
    ModMul(y, x, WORD);
    assert y * (x % WORD) == (x % WORD) * y && y * x == x * y;
  }

  /** The value is the true power exactly when that fits 64 bits. */
  lemma ExactIffFits(a: word, b: word)
    ensures Value(a, b) == Pow(a, b) <==> Pow(a, b) < WORD
  {
    ValueIsPow(a, b);
  }

  // --- When the value is 0 ---

  lemma {:induction false} PowOdd(a: nat, b: nat)
    requires a % 2 == 1
    ensures Pow(a, b) % 2 == 1
  {
    if b > 0 {
      PowOdd(a, b - 1);
      OddTimesOdd(a, Pow(a, b - 1));
    }
  }

  lemma OddTimesOdd(x: nat, y: nat)
    requires x % 2 == 1 && y % 2 == 1
    ensures (x * y) % 2 == 1
  {
    ModMul(x, y, 2);
    assert x * 1 == x;
  }

  lemma {:induction false} PowProduct(x: nat, y: nat, b: nat)
    ensures Pow(x * y, b) == Pow(x, b) * Pow(y, b)
  {
    if b > 0 {
      PowProduct(x, y, b - 1);
      Shuffle(x, y, Pow(x, b - 1), Pow(y, b - 1));
    }
  }

  lemma {:induction false} PowPow(x: nat, k: nat, b: nat)
    ensures Pow(Pow(x, k), b) == Pow(x, k * b)
  {
    if b > 0 {
      PowPow(x, k, b - 1);
      PowAdd(x, k, k * (b - 1));
      assert k + k * (b - 1) == k * b;
    }
  }

  lemma WordIsPow()
    ensures Pow(2, 64) == WORD
  {
    assert Pow(2, 8) == 256;
    PowAdd(2, 8, 8);
    PowAdd(2, 16, 16);
    PowAdd(2, 32, 32);
  }

  lemma Multiple(m: int, r: int, odd: int)
    requires m > 0
    ensures ((m * r) * odd) % m == 0
  {
    assert (m * r) * odd == (r * odd) * m;
    ModUnique((m * r) * odd, r * odd, 0, m);
  }

  lemma NoMultiple(p: int, half: int, odd: int)
    requires p > 0 && half > 0 && odd % 2 == 1 && p * (2 * half) > 0
    ensures (p * odd) % (p * (2 * half)) != 0
  {
    var m := p * (2 * half);
    var q := (p * odd) / m;
    if (p * odd) % m == 0 {
      assert p * odd == m * q;
      assert m * q == p * (2 * (half * q));
      Cancel(p, odd, 2 * (half * q));
    }
  }

  /** A power of two times an odd number is a multiple of 2^w only from w factors 2 on. */
  lemma OddMultiple(e: nat, odd: nat, w: nat)
    requires odd % 2 == 1
    ensures (Pow(2, e) * odd) % Pow(2, w) == 0 <==> e >= w
  {
    if e >= w {
      PowAdd(2, w, e - w);
      Multiple(Pow(2, w), Pow(2, e - w), odd);
    } else {
      PowAdd(2, e, w - e);
      NoMultiple(Pow(2, e), Pow(2, w - e - 1), odd);
    }
  }

  lemma ZeroForFactors(a: word, k: nat, odd: nat, b: word)
    requires odd % 2 == 1 && a == Pow(2, k) * odd
    ensures Value(a, b) == 0 <==> k * b >= 64
  {
    ValueIsPow(a, b);
    PowProduct(Pow(2, k), odd, b);
    PowPow(2, k, b);
    PowOdd(odd, b);
    WordIsPow();
    OddMultiple(k * b, Pow(odd, b), 64);
  }

  /** How many factors 2 a positive number has. */
  function Twos(a: nat): nat
    requires a > 0
  {
    if a % 2 == 1 then 0 else 1 + Twos(a / 2)
  }

  /** What is left without them. */
  function OddPart(a: nat): nat
    requires a > 0
  {
    if a % 2 == 1 then a else OddPart(a / 2)
  }

  lemma {:induction false} Factors(a: nat)
    requires a > 0
    ensures a == Pow(2, Twos(a)) * OddPart(a) && OddPart(a) % 2 == 1
  {
    if a % 2 == 0 {
      Factors(a / 2);
      MulAssoc(2, Pow(2, Twos(a / 2)), OddPart(a / 2));
    }
  }

  /** The value is 0 exactly when the power has 64 factors 2. So no power of an odd base is 0, and every
      power of an even base from the 64th on is. */
  lemma ZeroIff(a: word, b: word)
    ensures Value(a, b) == 0 <==> if a == 0 then b > 0 else Twos(a) * b >= 64
  {
    if a > 0 {
      Factors(a);
      ZeroForFactors(a, Twos(a), OddPart(a), b);
    }
  }

  /** All values of an odd base are odd. */
  lemma OddStaysOdd(a: word, b: word)
    requires a % 2 == 1
    ensures Value(a, b) % 2 == 1
  {
    ValueIsPow(a, b);
    PowOdd(a, b);
    OddRemainder(Pow(a, b), WORD / 2);
  }

  lemma OddRemainder(p: int, half: int)
    requires p % 2 == 1 && half > 0
    ensures (p % (2 * half)) % 2 == 1
  {
    var m := 2 * half;
    var q := p / m;
    assert p == m * q + p % m;
    assert m * q == 2 * (half * q);
  }

  /** From the 64th on, all powers of an even base, 0 included, wrap to 0. */
  lemma EvenVanishes(a: word, b: word)
    requires a % 2 == 0 && b >= 64
    ensures Value(a, b) == 0
  {
    ValueIsPow(a, b);
    PowProduct(2, a / 2, b);
    PowAdd(2, 64, b - 64);
    WordIsPow();
    Multiple(WORD, Pow(2, b - 64), Pow(a / 2, b));
  }
}
