/** What the operators on words mean, independently of how they are computed: bit by bit, and as sums. */
module WordLaws {
  import opened Words
  import C = Codegen

  function Bit(x: nat, i: nat): bool {
    x / Pow2(i) % 2 == 1
  }

  lemma BitHalf(x: nat, i: nat)
    requires i > 0
    ensures Bit(x, i) == Bit(x / 2, i - 1)
  {
    var d := Pow2(i - 1);
    var q, r := x / 2 / d, x / 2 % d;
    QuotientRemainder(x / 2, d);
    assert x == (2 * d) * q + (2 * r + x % 2);
    ModUnique(x, q, 2 * r + x % 2, 2 * d);
  }

  lemma BitLow(x: nat)
    ensures Bit(x, 0) == (x % 2 == 1)
  {
    assert Pow2(0) == 1 && x / 1 == x;
  }

  /** Each bit of the result is the conjunction, the disjunction or the inequality of the operands' bits. */
  lemma {:induction false} BitLaw(a: nat, b: nat, w: nat, i: nat)
    requires i < w
    ensures Bit(Bitwise(AndBits, a, b, w), i) == (Bit(a, i) && Bit(b, i))
    ensures Bit(Bitwise(OrBits, a, b, w), i) == (Bit(a, i) || Bit(b, i))
    ensures Bit(Bitwise(XorBits, a, b, w), i) == (Bit(a, i) != Bit(b, i))
    decreases i
  {
    var x, y, z := Bitwise(AndBits, a, b, w), Bitwise(OrBits, a, b, w), Bitwise(XorBits, a, b, w);
    hide Bit;
    if i == 0 {
      BitLow(a);
      BitLow(b);
      BitLow(x);
      BitLow(y);
      BitLow(z);
    } else {
      BitHalf(a, i);
      BitHalf(b, i);
      BitHalf(x, i);
      BitHalf(y, i);
      BitHalf(z, i);
      assert x / 2 == Bitwise(AndBits, a / 2, b / 2, w - 1);
      assert y / 2 == Bitwise(OrBits, a / 2, b / 2, w - 1);
      assert z / 2 == Bitwise(XorBits, a / 2, b / 2, w - 1);
      BitLaw(a / 2, b / 2, w - 1, i - 1);
    }
  }

  /** Or and and together add up to the operands, and so do xor and twice and. */
  lemma {:induction false} BitSums(a: nat, b: nat, w: nat)
    requires a < Pow2(w) && b < Pow2(w)
    ensures Bitwise(OrBits, a, b, w) + Bitwise(AndBits, a, b, w) == a + b
    ensures Bitwise(XorBits, a, b, w) + 2 * Bitwise(AndBits, a, b, w) == a + b
    decreases w
  {
    if w > 0 { BitSums(a / 2, b / 2, w - 1); }
  }

  lemma TopBit(u: nat, w: nat)
    requires w > 0 && u < Pow2(w)
    ensures Bit(u, w - 1) == (u >= Pow2(w - 1))
  {
    var d := Pow2(w - 1);
    if u >= d { ModUnique(u, 1, u - d, d); } else { ModUnique(u, 0, u, d); }
  }

  /** The same on signed values of type long, as the compiler folds them. */
  lemma SignedSums(a: int, b: int)
    requires InRange(a, W64) && InRange(b, W64)
    ensures W64 == Pow2(64)
    ensures C.BitsOf(OrBits, a, b, W64, 64) + C.BitsOf(AndBits, a, b, W64, 64) == a + b
    ensures var x, n := C.BitsOf(XorBits, a, b, W64, 64), C.BitsOf(AndBits, a, b, W64, 64); (x + 2 * n - (a + b)) % W64 == 0
  {
    Pow2Values();
    var r, s := Residue(a, W64), Residue(b, W64);
    var o, n, x := Bitwise(OrBits, r, s, 64), Bitwise(AndBits, r, s, 64), Bitwise(XorBits, r, s, 64);
    BitSums(r, s, 64);
    BitLaw(r, s, 64, 63);
    TopBit(r, 64);
    TopBit(s, 64);
    TopBit(o, 64);
    TopBit(n, 64);
    hide Bit, Bitwise, Pow2;
    ResidueSigned(a);
    ResidueSigned(b);
    assert x + 2 * n == r + s;
    XorShift(a, b, r, s, x, n);
  }

  lemma ResidueSigned(a: int)
    requires InRange(a, W64)
    ensures var r := Residue(a, W64); a == if r >= 0x8000_0000_0000_0000 then r - W64 else r
  {
    if a >= 0 { ModUnique(a, 0, a, W64); } else { ModUnique(a, -1, a + W64, W64); }
  }

  lemma XorShift(a: int, b: int, r: int, s: int, x: nat, n: nat)
    requires x + 2 * n == r + s && (a == r || a == r - W64) && (b == s || b == s - W64) && x < W64 && n < W64
    ensures (Signed(x, W64) + 2 * Signed(n, W64) - (a + b)) % W64 == 0
  {
    var t := Signed(x, W64) + 2 * Signed(n, W64) - (a + b);
    var k := (if Signed(x, W64) == x then 0 else -1) + 2 * (if Signed(n, W64) == n then 0 else -1) + (if a == r then 0 else 1) + (if b == s then 0 else 1);
    assert t == k * W64;
    ModUnique(t, k, 0, W64);
  }
}
