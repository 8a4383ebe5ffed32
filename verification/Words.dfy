/** 32-bit words, bytes and little-endian memory, as the C sources use them.
    Words are integers below 2^32; every conversion to `uint32_t` is an explicit `Wrap`. */
module Words {

  type Byte = x: int | 0 <= x < 0x100
  type Word = x: int | 0 <= x < 0x1_0000_0000

  datatype Option<+T> = None | Some(value: T)
  {
    predicate IsFailure() { None? }

    function PropagateFailure<U>(): Option<U>
      requires None?
    {
      None
    }

    function Extract(): T
      requires Some?
    {
      value
    }
  }

  /** Conversion to uint32_t: the residue modulo 2^32. */
  function Wrap(x: int): Word {
    x % 0x1_0000_0000
  }

  /** Reading the same 32 bits as an int32_t. */
  function Signed(w: Word): int {
    if w < 0x8000_0000 then w else w - 0x1_0000_0000
  }

  /** Is the bit of weight `p` set?  `p` is always a literal power of two. */
  predicate Bit(w: Word, p: Word)
    requires p > 0
  {
    w / p % 2 == 1
  }

  /** Sign extension of the low 8, 16 or 20 bits (`p` is half the modulus). */
  function SignExtend(w: int, p: int): int
    requires p > 0
  {
    if w % (2 * p) < p then w % (2 * p) else w % (2 * p) - 2 * p
  }

  /** A word is the little-endian sum of its bytes. */
  lemma WordBytes(v: Word)
    ensures v == v % 0x100 + 0x100 * (v / 0x100 % 0x100) + 0x1_0000 * (v / 0x1_0000 % 0x100)
        + 0x100_0000 * (v / 0x100_0000)
    ensures v / 0x1_0000 / 0x100 == v / 0x100_0000 < 0x100
  {
    var a, b := v / 0x100, v / 0x1_0000;
    DivUnique(v, 0x1_0000, a / 0x100, a % 0x100 * 0x100 + v % 0x100);
    DivUnique(v, 0x100_0000, b / 0x100, b % 0x100 * 0x1_0000 + v % 0x1_0000);
  }

  /* ---- Bitwise operations on naturals ---- */

  function And(a: nat, b: nat): (r: nat)
    ensures r <= a && r <= b
  {
    if a == 0 || b == 0 then 0 else (if a % 2 == 1 && b % 2 == 1 then 1 else 0) + 2 * And(a / 2, b / 2)
  }

  /** a | b and a ^ b, through the carry-free sum of the disjoint parts. */
  function Or(a: nat, b: nat): (r: nat)
    ensures a <= r && b <= r && r <= a + b
  {
    a + b - And(a, b)
  }

  function Xor(a: nat, b: nat): (r: nat)
    ensures r <= a + b
  {
    a + b - 2 * And(a, b)
  }

  function Pow2(n: nat): (p: nat)
    ensures p > 0
  {
    if n == 0 then 1 else 2 * Pow2(n - 1)
  }

  lemma Pow2Literals()
    ensures Pow2(12) == 0x1000 && Pow2(16) == 0x1_0000 && Pow2(22) == 0x40_0000 && Pow2(32) == 0x1_0000_0000
  {
    assert Pow2(8) == 256;
    assert Pow2(12) == 0x1000;
    assert Pow2(16) == 0x1_0000;
    assert Pow2(22) == 0x40_0000;
    assert Pow2(28) == 0x1000_0000;
  }

  /** A bitwise or of n-bit numbers is an n-bit number. */
  lemma {:induction false} OrBound(a: nat, b: nat, n: nat)
    requires a < Pow2(n) && b < Pow2(n)
    ensures Or(a, b) < Pow2(n)
  {
    if n == 0 || a == 0 || b == 0 {
    } else {
      OrBound(a / 2, b / 2, n - 1);
    }
  }

  /** Or of a multiple of 2^n with an n-bit number is their sum. */
  lemma {:induction false} AndDisjoint(a: nat, b: nat, n: nat)
    requires a % Pow2(n) == 0 && b < Pow2(n)
    ensures And(a, b) == 0
  {
    if n == 0 || a == 0 || b == 0 {
    } else {
      var k := a / Pow2(n);
      assert a == k * Pow2(n) == 2 * (k * Pow2(n - 1));
      assert a / 2 == k * Pow2(n - 1) && a % 2 == 0;
      MultipleMod(k, Pow2(n - 1));
      AndDisjoint(a / 2, b / 2, n - 1);
    }
  }

  lemma {:induction false} MultipleMod(k: nat, p: nat)
    requires p > 0
    ensures k * p % p == 0
  {
    DivUnique(k * p, p, k, 0);
  }

  lemma {:induction false} DivUnique(x: nat, p: nat, q: nat, r: nat)
    requires p > 0 && x == q * p + r && r < p
    ensures x / p == q && x % p == r
  {
    var q', r' := x / p, x % p;
    assert x == q' * p + r' && 0 <= r' < p;
    if q > q' {
      MulLe(p, q' + 1, q);
    } else if q < q' {
      MulLe(p, q + 1, q');
    }
  }

  lemma {:induction false} MulLe(p: nat, a: nat, b: nat)
    requires a <= b
    ensures a * p <= b * p
  {
    assert b * p - a * p == (b - a) * p;
  }

  /** The lowest bit and the rest, modulo an even number. */
  lemma HalfMod(x: nat, p: nat)
    requires p > 0
    ensures x % (2 * p) == x % 2 + 2 * (x / 2 % p)
    ensures x % (2 * p) % 2 == x % 2 && x % (2 * p) / 2 == x / 2 % p
  {
    var h, b := x / 2, x % 2;
    var q, r := h / p, h % p;
    TwiceProduct(q, p);
    var t, u := q * p, q * (2 * p);
    assert h == t + r && x == u + (2 * r + b);
    DivUnique(x, 2 * p, q, 2 * r + b);
    DivUnique(2 * r + b, 2, r, b);
  }

  lemma TwiceProduct(a: nat, b: nat)
    ensures a * (2 * b) == 2 * (a * b)
  {
  }

  function OrW(a: Word, b: Word): Word {
    Pow2Literals();
    OrBound(a, b, 32);
    Or(a, b)
  }

  lemma {:induction false} XorBound(a: nat, b: nat, n: nat)
    requires a < Pow2(n) && b < Pow2(n)
    ensures Xor(a, b) < Pow2(n)
  {
    if n == 0 || a == 0 || b == 0 {
    } else {
      XorBound(a / 2, b / 2, n - 1);
    }
  }

  function XorW(a: Word, b: Word): Word {
    Pow2Literals();
    XorBound(a, b, 32);
    Xor(a, b)
  }
}
