/** What the arithmetic instructions compute, said on numbers and bits, and that the processor's operations do. */
module Arithmetic {
  import opened Words
  import opened Cpu
  import opened Bits
  import opened MultiWord

  datatype Operation =
    | Add | AddCarry | Sub | SubBorrow
    | BitAnd | BitOr | BitXor
    | ShiftLeft | ShiftRight | ShiftSigned | RotateLeft | RotateRight
    | Multiply | HighSigned | HighUnsigned
    | DivideSigned | DivideUnsigned | RemainderSigned | RemainderUnsigned
  {
    predicate Divides() {
      DivideSigned? || DivideUnsigned? || RemainderSigned? || RemainderUnsigned?
    }
  }

  /** The signed number a word stands for: the one in [-2^31, 2^31) congruent to it. */
  lemma SignedIs(w: Word)
    ensures -0x8000_0000 <= Signed(w) < 0x8000_0000 && Signed(w) % 0x1_0000_0000 == w
  {
  }

  predicate InRange(x: int) {
    -0x8000_0000 <= x < 0x8000_0000
  }

  /** The flags word `g` after a result `r`: N (bit 31) and Z (bit 30) tell of the result, C (bit 29) and V (bit 28)
      are as given, and the other bits are those of `f`. */
  predicate FlagsTell(f: Word, g: Word, r: Word, c: bool, v: bool) {
    && (g / 0x8000_0000 == 1 <==> r >= 0x8000_0000) && (g / 0x4000_0000 % 2 == 1 <==> r == 0)
    && (g / 0x2000_0000 % 2 == 1 <==> c) && (g / 0x1000_0000 % 2 == 1 <==> v) && g % 0x1000_0000 == f % 0x1000_0000
  }

  /** N and Z tell of the result, everything else is kept. */
  predicate OnlyNZ(f: Word, g: Word, r: Word) {
    && (g / 0x8000_0000 == 1 <==> r >= 0x8000_0000) && (g / 0x4000_0000 % 2 == 1 <==> r == 0)
    && g % 0x4000_0000 == f % 0x4000_0000
  }

  /** Division as in C: the quotient is truncated, the remainder has the sign of the dividend. */
  predicate Truncates(a: int, b: int, q: int, m: int) {
    a == q * b + m && Abs(m) < Abs(b) && (m > 0 ==> a > 0) && (m < 0 ==> a < 0)
  }

  function Abs(x: int): nat {
    if x < 0 then -x else x
  }

  /** `x / p` rounded down. */
  predicate Floor(r: int, x: int, p: int) {
    r * p <= x < r * p + p
  }

  /** Result `r` and flags `g` of an operation on `a` and `b`, with flags `f` before. */
  ghost predicate Computes(o: Operation, a: Word, b: Word, f: Word, r: Word, g: Word) {
    var c, n := f / 0x2000_0000 % 2, b % 32;
    match o
    case Add =>
      r == (a + b) % 0x1_0000_0000
      && FlagsTell(f, g, r, a + b >= 0x1_0000_0000, !InRange(Signed(a) + Signed(b)))
    case AddCarry =>
      r == (a + b + c) % 0x1_0000_0000
      && FlagsTell(f, g, r, a + b + c >= 0x1_0000_0000, !InRange(Signed(a) + Signed(b) + c))
    case Sub =>
      r == (a - b) % 0x1_0000_0000 && FlagsTell(f, g, r, a < b, !InRange(Signed(a) - Signed(b)))
    case SubBorrow =>
      r == (a - b - c) % 0x1_0000_0000 && FlagsTell(f, g, r, a < b + c, !InRange(Signed(a) - Signed(b) - c))
    case BitAnd =>
      (forall k: nat :: BitAt(r, k) <==> BitAt(a, k) && BitAt(b, k)) && FlagsTell(f, g, r, false, false)
    case BitOr =>
      (forall k: nat :: BitAt(r, k) <==> BitAt(a, k) || BitAt(b, k)) && FlagsTell(f, g, r, false, false)
    case BitXor =>
      (forall k: nat :: BitAt(r, k) <==> BitAt(a, k) != BitAt(b, k)) && FlagsTell(f, g, r, false, false)
    case ShiftLeft =>
      (forall k: nat :: BitAt(r, k) <==> n <= k < 32 && BitAt(a, k - n)) && FlagsTell(f, g, r, false, false)
    case ShiftRight =>
      (forall k: nat :: BitAt(r, k) <==> BitAt(a, k + n)) && FlagsTell(f, g, r, false, false)
    case ShiftSigned =>
      Floor(Signed(r), Signed(a), Pow2(n)) && FlagsTell(f, g, r, false, false)
    case RotateLeft =>
      (forall k: nat :: k < 32 ==> (BitAt(r, (k + n) % 32) <==> BitAt(a, k))) && FlagsTell(f, g, r, false, false)
    case RotateRight =>
      (forall k: nat :: k < 32 ==> (BitAt(r, k) <==> BitAt(a, (k + n) % 32))) && FlagsTell(f, g, r, false, false)
    case Multiply => r == a * b % 0x1_0000_0000 && OnlyNZ(f, g, r)
    case HighSigned => Floor(Signed(r), Signed(a) * Signed(b), 0x1_0000_0000) && OnlyNZ(f, g, r)
    case HighUnsigned => Floor(r, a * b, 0x1_0000_0000) && OnlyNZ(f, g, r)
    case DivideSigned =>
      (exists q: int, m: int :: Truncates(Signed(a), Signed(b), q, m) && r == q % 0x1_0000_0000) && OnlyNZ(f, g, r)
    case DivideUnsigned => (exists m: int :: Truncates(a, b, r, m)) && OnlyNZ(f, g, r)
    case RemainderSigned =>
      (exists q: int :: Truncates(Signed(a), Signed(b), q, Signed(r))) && OnlyNZ(f, g, r)
    case RemainderUnsigned => (exists q: int :: Truncates(a, b, q, r)) && OnlyNZ(f, g, r)
  }

  /* ---- Flags ---- */

  lemma FlagBits(f: Word, r: Word, c: bool, v: bool)
    ensures FlagsTell(f, Flags(f, r, c, v), r, c, v)
  {
    hide Flags;
    FlagsRead(f, r, c, v);
    FlagsParts(f, r, c, v);
  }

  lemma FlagsParts(f: Word, r: Word, c: bool, v: bool)
    ensures var g := Flags(f, r, c, v);
      g % 0x1000_0000 == f % 0x1000_0000 && (g / 0x8000_0000 == 1 <==> g >= 0x8000_0000)
  {
    var n, z, low := One(Neg(r)), One(r == 0), f % 0x1000_0000;
    DivUnique(Flags(f, r, c, v), 0x1000_0000, 8 * n + 4 * z + 2 * One(c) + One(v), low);
  }

  lemma NZBits(f: Word, r: Word)
    ensures OnlyNZ(f, FlagsNZ(f, r), r)
  {
    var n, z, low := One(Neg(r)), One(r == 0), f % 0x4000_0000;
    var g := FlagsNZ(f, r);
    DivUnique(g, 0x4000_0000, 2 * n + z, low);
    DivUnique(g, 0x8000_0000, n, 0x4000_0000 * z + low);
    DivUnique(2 * n + z, 2, n, z);
  }

  /* ---- Sums ---- */

  lemma Sums(a: Word, b: Word, carry: bool, f: Word)
    ensures var r, s := AddOp(a, b, carry, f), a + b + One(carry);
      r.value == s % 0x1_0000_0000
      && FlagsTell(f, r.flags, r.value, s >= 0x1_0000_0000, !InRange(Signed(a) + Signed(b) + One(carry)))
  {
    hide FlagsTell, Flags;
    var r := Wrap(a + b + One(carry));
    FlagBits(f, r, a + b + One(carry) > 0xFFFF_FFFF, Neg(a) == Neg(b) && Neg(r) != Neg(a));
  }

  lemma Differences(a: Word, b: Word, borrow: bool, f: Word)
    ensures var r, d := SubOp(a, b, borrow, f), a - b - One(borrow);
      r.value == d % 0x1_0000_0000
      && FlagsTell(f, r.flags, r.value, d < 0, !InRange(Signed(a) - Signed(b) - One(borrow)))
  {
    hide FlagsTell, Flags;
    var r := Wrap(a - b - One(borrow));
    FlagBits(f, r, b + One(borrow) > a, Neg(a) != Neg(b) && Neg(r) != Neg(a));
  }

  /* ---- Shifts and rotations ---- */

  lemma LeftBits(a: Word, n: nat, k: nat)
    ensures BitAt(Lsl(a, n), k) <==> n <= k < 32 && BitAt(a, k - n)
  {
    hide BitAt, Pow2;
    Pow2Literals();
    var x := a * Pow2(n);
    LowBits(x, 32, k);
    ShiftedUp(a, n, k);
  }

  lemma RightBits(a: Word, n: nat, k: nat)
    ensures BitAt(Lsr(a, n), k) <==> BitAt(a, k + n)
  {
    hide BitAt, Pow2;
    ShiftedDown(a, n, Lsr(a, n), a % Pow2(n), k);
  }

  lemma RolBits(a: Word, n: nat, k: nat)
    requires n < 32 && k < 32
    ensures BitAt(Rol(a, n), (k + n) % 32) <==> BitAt(a, k)
  {
    hide BitAt, OrW, Lsl, Lsr;
    if n == 0 {
    } else {
      var j := (k + n) % 32;
      OrBits(Lsl(a, n), Lsr(a, 32 - n), j);
      LeftBits(a, n, j);
      RightBits(a, 32 - n, j);
      if k + n >= 32 {
        assert j + (32 - n) == k && j < n;
      } else {
        WordBits(a, j + (32 - n));
      }
      assert OrW(Lsl(a, n), Lsr(a, 32 - n)) == Or(Lsl(a, n), Lsr(a, 32 - n)) by { OrIs(Lsl(a, n), Lsr(a, 32 - n)); }
    }
  }

  lemma OrIs(a: Word, b: Word)
    ensures OrW(a, b) == Or(a, b)
  {
  }

  lemma XorIs(a: Word, b: Word)
    ensures XorW(a, b) == Xor(a, b)
  {
  }

  lemma RorBits(a: Word, n: nat, k: nat)
    requires n < 32 && k < 32
    ensures BitAt(Ror(a, n), k) <==> BitAt(a, (k + n) % 32)
  {
    hide BitAt, OrW, Lsl, Lsr;
    if n == 0 {
    } else {
      var x, y := Lsr(a, n), Lsl(a, 32 - n);
      OrIs(x, y);
      OrBits(x, y, k);
      RightBits(a, n, k);
      LeftBits(a, 32 - n, k);
      if k + n >= 32 {
        WordBits(a, k + n);
      }
    }
  }

  /** An arithmetic shift divides the signed number by 2^n, rounding down. */
  lemma AsrFloors(a: Word, n: nat)
    ensures Floor(Signed(Asr(a, n)), Signed(a), Pow2(n))
  {
    hide Pow2;
    var p, x := Pow2(n), Signed(a);
    var q := x / p;
    assert Floor(q, x, p) by { assert x == q * p + x % p; }
    assert -0x8000_0000 <= q < 0x8000_0000 by { Shrinks(x, p, q); }
    assert Signed(Wrap(q)) == q by { SmallSigned(q); }
  }

  lemma Shrinks(x: int, p: nat, q: int)
    requires p > 0 && Floor(q, x, p) && InRange(x)
    ensures InRange(q)
  {
    if q >= 0 {
      MulLe(q, 1, p);
    } else {
      MulLe(-q - 1, 1, p);
      assert (-q - 1) * p == -(q * p + p);
    }
  }

  lemma SmallSigned(q: int)
    requires InRange(q)
    ensures Signed(Wrap(q)) == q
  {
    if q >= 0 {
      DivUnique(q, 0x1_0000_0000, 0, q);
    } else {
      assert q % 0x1_0000_0000 == q + 0x1_0000_0000;
    }
  }

  /* ---- Products ---- */

  lemma HighFloors(a: Word, b: Word)
    ensures Floor(Signed(Wrap(Signed(a) * Signed(b) / 0x1_0000_0000)), Signed(a) * Signed(b), 0x1_0000_0000)
  {
    var x := Signed(a) * Signed(b);
    ProductRange(Signed(a), Signed(b));
    SmallSigned(x / 0x1_0000_0000);
  }

  lemma ProductRange(x: int, y: int)
    requires InRange(x) && InRange(y)
    ensures -0x4000_0000_0000_0000 <= x * y <= 0x4000_0000_0000_0000
  {
    MulLe(Abs(x), Abs(y), 0x8000_0000);
    MulLe(0x8000_0000, Abs(x), 0x8000_0000);
    assert x * y == Abs(x) * Abs(y) || x * y == -(Abs(x) * Abs(y));
  }

  lemma HighUnsignedFloors(a: Word, b: Word)
    ensures Floor(Wrap(a * b / 0x1_0000_0000), a * b, 0x1_0000_0000)
  {
    MulLe(b, a, 0xFFFF_FFFF);
    DivUnique(a * b / 0x1_0000_0000, 0x1_0000_0000, 0, a * b / 0x1_0000_0000);
  }

  /* ---- Quotients ---- */

  lemma TruncDivides(a: int, b: int)
    requires b != 0
    ensures Truncates(a, b, TruncDiv(a, b), TruncMod(a, b))
  {
    EuclideanDivides(Abs(a), b);
    NegatedProduct(Abs(a) / b, b);
  }

  lemma EuclideanDivides(x: nat, b: int)
    requires b != 0
    ensures x == x / b * b + x % b && 0 <= x % b < Abs(b)
    ensures x == 0 ==> x % b == 0
  {
  }

  lemma NegatedProduct(q: int, b: int)
    ensures (-q) * b == -(q * b)
  {
  }

  lemma UnsignedDivides(a: Word, b: Word)
    requires b != 0
    ensures Truncates(a, b, a / b, a % b) && Wrap(a / b) == a / b && Wrap(a % b) == a % b
  {
    DivLe(a, b);
    assert a == a / b * b + a % b;
    DivUnique(a / b, 0x1_0000_0000, 0, a / b);
    DivUnique(a % b, 0x1_0000_0000, 0, a % b);
  }

  lemma SignedRemainder(a: Word, b: Word)
    requires b != 0
    ensures Signed(Wrap(TruncMod(Signed(a), Signed(b)))) == TruncMod(Signed(a), Signed(b))
  {
    TruncDivides(Signed(a), Signed(b));
    SmallSigned(TruncMod(Signed(a), Signed(b)));
  }
}
