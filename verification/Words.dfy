/** Fixed-width two's-complement arithmetic over unbounded integers.

    A machine word of `w` bits is a natural number below `Pow2(w)`; a C value of a `w`-bit
    signed type is an integer between `-Pow2(w-1)` and `Pow2(w-1) - 1`.  `Residue` goes from
    values to words, `Signed` from words to values, and `Wrap` is their composition.
 */
module Words {

  function Pow2(n: nat): (r: nat)
    ensures r >= 1
  {
    if n == 0 then 1 else 2 * Pow2(n - 1)
  }

  const W8: nat := 0x100
  const W16: nat := 0x1_0000
  const W32: nat := 0x1_0000_0000
  const W64: nat := 0x1_0000_0000_0000_0000

  lemma Pow2Values()
    ensures Pow2(7) == 128 && Pow2(8) == W8 && Pow2(15) == 32768 && Pow2(16) == W16
    ensures Pow2(31) == W32 / 2 && Pow2(32) == W32
    ensures Pow2(63) == W64 / 2 && Pow2(64) == W64
  {
    assert Pow2(7) == 128;
    Pow2Doubled(7);
    Pow2Doubled(15);
    Pow2Doubled(31);
  }

  lemma Pow2Doubled(k: nat)
    ensures Pow2(k + 1) == 2 * Pow2(k) && Pow2(2 * k + 1) == 2 * (Pow2(k) * Pow2(k))
    ensures Pow2(2 * k + 2) == 2 * Pow2(2 * k + 1)
  {
    Pow2Sum(k, k);
  }

  lemma {:induction false} Pow2Sum(m: nat, n: nat)
    ensures Pow2(m + n) == Pow2(m) * Pow2(n)
  {
    if m != 0 {
      Pow2Sum(m - 1, n);
    }
  }

  lemma {:induction false} Pow2Monotone(m: nat, n: nat)
    requires m < n
    ensures 2 * Pow2(m) <= Pow2(n)
  {
    if m + 1 < n {
      Pow2Monotone(m, n - 1);
    }
  }

  /** A 64-bit register. */
  type Word = w: int | 0 <= w < W64

  type Byte = b: int | 0 <= b < 256

  /** The word whose bits represent `v` modulo `m`. */
  function Residue(v: int, m: nat): (r: nat)
    requires m > 0
    ensures r < m
  {
    v % m
  }

  /** The signed reading of a word of modulus `m`. */
  function Signed(u: int, m: nat): int
    requires 0 <= u < m
  {
    if 2 * u >= m then u - m else u
  }

  predicate InRange(v: int, m: nat) {
    -(m as int) <= 2 * v < m
  }

  /** What a value becomes when stored in a signed type of modulus `m`. */
  function Wrap(v: int, m: nat): (r: int)
    requires m > 0 && m % 2 == 0
    ensures InRange(r, m)
  {
    Signed(Residue(v, m), m)
  }

  lemma WrapInRange(v: int, m: nat)
    requires m > 0 && m % 2 == 0 && InRange(v, m)
    ensures Wrap(v, m) == v
    ensures Signed(Residue(v, m), m) == v
  {
    if v < 0 {
      ModUnique(v, -1, v + m, m);
    } else {
      ModUnique(v, 0, v, m);
    }
  }

  lemma MulAtLeast(k: int, m: nat)
    requires k >= 1
    ensures k * m >= m
  {
  }

  /** Division with remainder is unique. */
  lemma ModUnique(x: int, q: int, r: int, m: nat)
    requires m > 0 && x == q * m + r && 0 <= r < m
    ensures x % m == r && x / m == q
  {
    var q', r' := x / m, x % m;
    assert x == m * q' + r';
    UniqueQuotient(q, r, q', r', m);
  }

  lemma UniqueQuotient(q: int, r: int, q': int, r': int, m: nat)
    requires 0 <= r < m && 0 <= r' < m && q * m + r == m * q' + r'
    ensures q == q' && r == r'
  {
    assert (q - q') * m == r' - r;
    if q > q' {
      MulAtLeast(q - q', m);
    } else if q < q' {
      MulAtLeast(q' - q, m);
    }
  }

  ghost predicate Congruent(x: int, y: int, m: nat)
    requires m > 0
  {
    x % m == y % m
  }

  lemma CongruentBy(x: int, y: int, k: int, m: nat)
    requires m > 0 && x == y + k * m
    ensures Congruent(x, y, m)
  {
    ModUnique(x, y / m + k, y % m, m);
  }

  lemma CongruentOps(x: int, x': int, y: int, y': int, m: nat)
    requires m > 0 && Congruent(x, x', m) && Congruent(y, y', m)
    ensures Congruent(x + y, x' + y', m)
    ensures Congruent(x - y, x' - y', m)
    ensures Congruent(x * y, x' * y', m)
  {
    var a, b := x / m - x' / m, y / m - y' / m;
    assert x == x' + a * m;
    assert y == y' + b * m;
    CongruentBy(x + y, x' + y', a + b, m);
    CongruentBy(x - y, x' - y', a - b, m);
    assert x * y == x' * y' + (a * y' + x' * b + a * b * m) * m;
    CongruentBy(x * y, x' * y', a * y' + x' * b + a * b * m, m);
  }

  /** A word is congruent to its signed reading, and a value to its residue. */
  lemma SignedCongruent(u: int, m: nat)
    requires 0 <= u < m
    ensures Congruent(Signed(u, m), u, m)
    ensures Residue(Signed(u, m), m) == u
  {
    if 2 * u >= m {
      CongruentBy(Signed(u, m), u, -1, m);
    }
    ModUnique(u, 0, u, m);
  }

  lemma ResidueCongruent(v: int, m: nat)
    requires m > 0
    ensures Congruent(Residue(v, m), v, m)
  {
    CongruentBy(Residue(v, m), v, -(v / m), m);
  }

  lemma WrapCongruent(v: int, m: nat)
    requires m > 0 && m % 2 == 0
    ensures Congruent(Wrap(v, m), v, m)
    ensures Residue(Wrap(v, m), m) == Residue(v, m)
  {
    SignedCongruent(Residue(v, m), m);
    ResidueCongruent(v, m);
  }

  lemma CongruentWrap(x: int, y: int, m: nat)
    requires m > 0 && m % 2 == 0 && Congruent(x, y, m)
    ensures Residue(x, m) == Residue(y, m) && Wrap(x, m) == Wrap(y, m)
  {
  }

  // Truncating division, as in C and as in the idiv instruction.

  function Abs(x: int): nat {
    if x < 0 then -x else x
  }

  function TruncDiv(a: int, b: int): int
    requires b != 0
  {
    var q := Abs(a) / Abs(b);
    if (a < 0) == (b < 0) then q else -q
  }

  function TruncMod(a: int, b: int): int
    requires b != 0
  {
    a - b * TruncDiv(a, b)
  }

  /** TruncDiv and TruncMod are the quotient rounded toward zero and its remainder:
      the remainder is smaller than the divisor and takes the sign of the dividend. */
  lemma TruncDivMeaning(a: int, b: int)
    requires b != 0
    ensures a == b * TruncDiv(a, b) + TruncMod(a, b)
    ensures Abs(TruncMod(a, b)) < Abs(b)
    ensures TruncMod(a, b) != 0 ==> (TruncMod(a, b) < 0 <==> a < 0)
  {
    var n, d := Abs(a), Abs(b);
    var q, r := n / d, n % d;
    QuotientRemainder(n, d);
    SignedProduct(a, b, q);
  }

  lemma QuotientRemainder(n: int, d: int)
    requires d > 0
    ensures n == d * (n / d) + n % d && 0 <= n % d < d
  {
  }

  lemma SignedProduct(a: int, b: int, q: int)
    ensures b * (if (a < 0) == (b < 0) then q else -q) == if a < 0 then -(Abs(b) * q) else Abs(b) * q
  {
  }

  // A quotient can leave the signed range only for the most negative dividend and divisor -1.
  lemma TruncDivRange(a: int, b: int, m: nat)
    requires m > 0 && m % 2 == 0 && InRange(a, m) && InRange(b, m) && b != 0
    ensures InRange(TruncDiv(a, b), m) <==> !(2 * a == 0 - m && b == -1)
    ensures InRange(TruncMod(a, b), m)
  {
    TruncDivMeaning(a, b);
    QuotientBound(Abs(a), Abs(b));
  }

  lemma QuotientBound(n: nat, d: nat)
    requires d > 0
    ensures d == 1 ==> n / d == n
    ensures d > 1 ==> 2 * (n / d) <= n
  {
    QuotientRemainder(n, d);
    if d > 1 {
      MulMonotone(2, d, n / d);
    }
  }

  lemma MulMonotone(x: nat, y: nat, k: nat)
    requires x <= y
    ensures x * k <= y * k
  {
  }

  // Bitwise operations on the low w bits.

  datatype BitOp = AndBits | OrBits | XorBits

  function BitOf(op: BitOp, a: nat, b: nat): nat {
    match op
    case AndBits => if a == 1 && b == 1 then 1 else 0
    case OrBits => if a == 1 || b == 1 then 1 else 0
    case XorBits => if a != b then 1 else 0
  }

  function Bitwise(op: BitOp, a: nat, b: nat, w: nat): (r: nat)
    ensures r < Pow2(w)
  {
    if w == 0 then 0
    else 2 * Bitwise(op, a / 2, b / 2, w - 1) + BitOf(op, a % 2, b % 2)
  }

  lemma {:induction false} BitwiseIdentities(a: nat, w: nat)
    requires a < Pow2(w)
    ensures Bitwise(AndBits, a, a, w) == a
    ensures Bitwise(XorBits, a, a, w) == 0
    ensures Bitwise(OrBits, a, 0, w) == a && Bitwise(OrBits, 0, a, w) == a
    ensures Bitwise(AndBits, a, 0, w) == 0 && Bitwise(AndBits, 0, a, w) == 0
  {
    if w != 0 {
      BitwiseIdentities(a / 2, w - 1);
    }
  }

  lemma {:induction false} BitwiseAllOnes(a: nat, w: nat)
    requires a < Pow2(w)
    ensures Bitwise(AndBits, a, Pow2(w) - 1, w) == a && Bitwise(AndBits, Pow2(w) - 1, a, w) == a
  {
    if w != 0 {
      var ones := Pow2(w) - 1;
      assert ones == 2 * (Pow2(w - 1) - 1) + 1;
      assert ones / 2 == Pow2(w - 1) - 1 && ones % 2 == 1;
      BitwiseAllOnes(a / 2, w - 1);
    }
  }

  /** The classic test `v & (v-1) == 0` accepts exactly the powers of two. */
  lemma {:induction false} PowerOfTwoTest(v: nat, w: nat)
    requires 0 < v < Pow2(w)
    ensures Bitwise(AndBits, v, v - 1, w) == 0 <==> exists n: nat :: n < w && v == Pow2(n)
  {
    if v == 1 {
      BitwiseIdentities(1, w);
      assert v == Pow2(0);
    } else if v % 2 == 1 {
      assert v / 2 == (v - 1) / 2;
      BitwiseIdentities(v / 2, w - 1);
      forall n: nat | n < w ensures v != Pow2(n) { }
    } else {
      PowerOfTwoTest(v / 2, w - 1);
      assert (v - 1) / 2 == v / 2 - 1;
      assert Bitwise(AndBits, v, v - 1, w) == 2 * Bitwise(AndBits, v / 2, v / 2 - 1, w - 1);
      hide Bitwise;
      HalfPower(v, w);
    }
  }

  lemma HalfPower(v: nat, w: nat)
    requires w > 0 && v > 1 && v % 2 == 0
    ensures (exists n: nat :: n < w && v == Pow2(n)) <==> (exists n: nat :: n < w - 1 && v / 2 == Pow2(n))
  {
    if n: nat :| n < w - 1 && v / 2 == Pow2(n) {
      assert n + 1 < w && v == Pow2(n + 1);
    }
    if n: nat :| n < w && v == Pow2(n) {
      HalfOf(n);
    }
  }

  lemma HalfOf(n: nat)
    requires Pow2(n) > 1
    ensures n > 0 && Pow2(n) / 2 == Pow2(n - 1)
  {
  }
}
